/** `handleContactForm`: the order of its guards and the e-mail it builds
    from the contact form. The environment's settings and the outcome of
    sending are parameters. */
module ContactController {
  import opened Wrappers
  import opened Strings
  import opened HttpReply

  const NotConfiguredMessage := "Email service is not configured."
  const MissingFieldsMessage := "Name, email, and message are required."
  const InvalidEmailMessage := "Invalid email format."
  const NoAddressMessage := "Email recipient or sender is not configured."
  const SentMessage := "Message sent successfully!"
  const SendFailedMessage := "Failed to send message. Please try again later."
  const MessageKey := "message"
  const SenderName := "Website Contact Form"
  const NotApplicable := "N/A"

  const SubjectStart := "New Contact Form Submission from "
  const TextName := "Name: "
  const TextEmail := "\nEmail: "
  const TextSchool := "\nSchool/Institution: "
  const TextMessage := "\n\nMessage:\n"
  const HtmlName := "\n      <p><strong>Name:</strong> "
  const HtmlEmail := "</p>\n      <p><strong>Email:</strong> <a href=\"mailto:"
  const HtmlEmailMiddle := "\">"
  const HtmlSchool := "</a></p>\n      <p><strong>School/Institution:</strong> "
  const HtmlMessage := "</p>\n      <hr>\n      <p><strong>Message:</strong></p>\n      <p>"
  const HtmlEnd := "</p>\n    "
  const LineBreak := "<br>"

  /** The e-mail handed to the mail service. */
  datatype Mail = Mail(
    to: string,
    fromName: string,
    fromEmail: string,
    replyToEmail: string,
    replyToName: string,
    subject: string,
    text: string,
    html: string)

  /** The reply, and the e-mail whose sending was attempted, if any. */
  datatype ContactResult = ContactResult(reply: Reply, attempted: Option<Mail>)

  /** `school || 'N/A'`. */
  function SchoolOrNA(school: Option<string>): (r: string)
    ensures r != ""
  {
    if Given(school) then school.value else NotApplicable
  }

  /** The subject names the sender and, when given, the school. */
  function Subject(name: string, school: Option<string>): string {
    SubjectStart + name + (if Given(school) then " (" + school.value + ")" else "")
  }

  function TextBody(name: string, email: string, school: Option<string>, message: string): string {
    TextName + name + TextEmail + email + TextSchool + SchoolOrNA(school) + TextMessage + message
  }

  /** `message.replace(/\n/g, '<br>')`. */
  function HtmlLines(message: string): (r: string)
    ensures '\n' !in r
  {
    ReplaceChar(message, '\n', LineBreak)
  }

  function HtmlBody(name: string, email: string, school: Option<string>, message: string): string {
    HtmlName + name + HtmlEmail + email + HtmlEmailMiddle + email + HtmlSchool + SchoolOrNA(school)
      + HtmlMessage + HtmlLines(message) + HtmlEnd
  }

  /** The well-formedness test on the address: it contains "@" and ".". */
  predicate EmailLooksValid(email: string) {
    Contains(email, "@") && Contains(email, ".")
  }

  /** `handleContactForm`. The form's fields are absent or strings;
      `apiKey`, `toEmail` and `fromEmail` are the settings (empty when
      unset) and `sendSucceeds` says whether sending succeeded. */
  function HandleContactForm(name: Option<string>, email: Option<string>, school: Option<string>,
                             message: Option<string>, apiKey: string, toEmail: string,
                             fromEmail: string, sendSucceeds: bool): ContactResult
  {
    if apiKey == "" then ContactResult(Reply(500, Single(MessageKey, NotConfiguredMessage)), None)
    else if !Given(name) || !Given(email) || !Given(message) then
      ContactResult(Reply(400, Single(MessageKey, MissingFieldsMessage)), None)
    else if !EmailLooksValid(email.value) then
      ContactResult(Reply(400, Single(MessageKey, InvalidEmailMessage)), None)
    else if toEmail == "" || fromEmail == "" then
      ContactResult(Reply(500, Single(MessageKey, NoAddressMessage)), None)
    else
      var mail := Mail(toEmail, SenderName, fromEmail, email.value, name.value,
                       Subject(name.value, school),
                       TextBody(name.value, email.value, school, message.value),
                       HtmlBody(name.value, email.value, school, message.value));
      if sendSucceeds then ContactResult(Reply(200, Single(MessageKey, SentMessage)), Some(mail))
      else ContactResult(Reply(500, Single(MessageKey, SendFailedMessage)), Some(mail))
  }

  /** The guards in order: a missing key is reported before the form is
      looked at; a 400 means a missing field or an address without "@" or
      "."; an e-mail is attempted exactly when every guard passes, and the
      reply is 200 exactly when it was sent. */
  lemma ContactGuards(name: Option<string>, email: Option<string>, school: Option<string>,
                      message: Option<string>, apiKey: string, toEmail: string,
                      fromEmail: string, sendSucceeds: bool)
    ensures var r := HandleContactForm(name, email, school, message, apiKey, toEmail, fromEmail, sendSucceeds);
            && (apiKey == "" ==> r == ContactResult(Reply(500, Single(MessageKey, NotConfiguredMessage)), None))
            && (r.reply.status == 400 <==>
                  apiKey != "" && (!Given(name) || !Given(email) || !Given(message)
                                   || '@' !in email.value || '.' !in email.value))
            && (r.attempted.Some? <==>
                  && apiKey != "" && Given(name) && Given(email) && Given(message)
                  && '@' in email.value && '.' in email.value
                  && toEmail != "" && fromEmail != "")
            && (r.reply.status == 200 <==> r.attempted.Some? && sendSucceeds)
  {
    if email.Some? {
      ContainsChar(email.value, '@');
      ContainsChar(email.value, '.');
    }
  }

  /** The e-mail replies to the sender under the sender's name, its subject
      mentions the school exactly when one is given, and the text shows
      "N/A" in its place otherwise. */
  lemma MailContents(name: string, email: string, school: Option<string>, message: string,
                     toEmail: string, fromEmail: string)
    requires name != "" && email != "" && message != "" && toEmail != "" && fromEmail != ""
    requires '@' in email && '.' in email
    ensures var r := HandleContactForm(Some(name), Some(email), school, Some(message), "key", toEmail, fromEmail, true);
            && r.attempted.Some?
            && r.attempted.value.replyToEmail == email && r.attempted.value.replyToName == name
            && r.attempted.value.to == toEmail && r.attempted.value.fromEmail == fromEmail
            && (!Given(school) ==> r.attempted.value.subject == SubjectStart + name)
            && (Given(school) ==> r.attempted.value.subject == SubjectStart + name + " (" + school.value + ")")
            && (!Given(school) ==> r.attempted.value.text == TextName + name + TextEmail + email + TextSchool + NotApplicable + TextMessage + message)
  {
    ContainsChar(email, '@');
    ContainsChar(email, '.');
    assert SubjectStart + name + "" == SubjectStart + name;
  }

  /** In the HTML body the message's lines are kept, in order, joined by
      `<br>`; each line break grows the text by three characters. */
  lemma HtmlLinesJoinLines(message: string)
    ensures HtmlLines(message) == Join(Split(message, '\n'), LineBreak)
    ensures |HtmlLines(message)| == |message| + 3 * CountChar(message, '\n')
  {
    ReplaceIsSplitJoin(message, '\n', LineBreak);
  }
}
