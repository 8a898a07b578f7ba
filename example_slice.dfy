/** The example counter slice of the frontend store: a value and a request
    status, changed in place by three reducers. */
module ExampleSlice {
  datatype RequestStatus = Idle | Loading | Failed

  class Counter {
    var value: int
    var status: RequestStatus

    /** The slice's initial state. */
    constructor ()
      ensures value == 0 && status == Idle
    {
      value := 0;
      status := Idle;
    }

    /** `increment`: one more, status untouched. */
    method Increment()
      modifies this
      ensures value == old(value) + 1
      ensures status == old(status)
    {
      value := value + 1;
    }

    /** `decrement`: one less, status untouched. */
    method Decrement()
      modifies this
      ensures value == old(value) - 1
      ensures status == old(status)
    {
      value := value - 1;
    }

    /** `incrementByAmount`: adds the payload, status untouched. */
    method IncrementByAmount(amount: int)
      modifies this
      ensures value == old(value) + amount
      ensures status == old(status)
    {
      value := value + amount;
    }
  }

  /** Incrementing and then decrementing gives back the state the counter
      had, value and status alike. */
  method IncrementThenDecrement(c: Counter)
    modifies c
    ensures c.value == old(c.value) && c.status == old(c.status)
  {
    c.Increment();
    c.Decrement();
  }
}
