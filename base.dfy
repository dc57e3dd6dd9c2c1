/** Vocabulary shared by every component: bytes, optional values and the log of listener calls. */
module Base {

  /** An unsigned octet, as InputStream.read() returns it (0 to 255). */
  type Byte = b: int | 0 <= b < 256

  /** A value that may be absent; None stands for Java's null. */
  datatype Option<+T> = None | Some(value: T)

  /** The singleton list of a present value, the empty list otherwise. */
  function Emitted<T>(o: Option<T>): (r: seq<T>)
    ensures |r| <= 1
    ensures o.Some? ==> r == [o.value]
    ensures o.None? ==> r == []
  {
    if o.Some? then [o.value] else []
  }

  /** A registered listener (a Java Consumer), identified by the token it was registered with. */
  type ListenerId = nat

  /** One call `listener.accept(value)`. */
  datatype Delivery<+T> = Delivery(listener: ListenerId, value: T)

  /** The calls made when value is handed to every listener in registration order. */
  function FanOut<T>(listeners: seq<ListenerId>, value: T): (r: seq<Delivery<T>>)
    ensures |r| == |listeners|
    decreases |listeners|
  {
    if listeners == [] then []
    else FanOut(listeners[..|listeners| - 1], value) + [Delivery(listeners[|listeners| - 1], value)]
  }

  /** The i-th call goes to the i-th listener, with the value. */
  lemma {:induction false} FanOutAt<T>(listeners: seq<ListenerId>, value: T, i: nat)
    requires i < |listeners|
    ensures FanOut(listeners, value)[i] == Delivery(listeners[i], value)
    decreases |listeners|
  {
    if i < |listeners| - 1 {
      FanOutAt(listeners[..|listeners| - 1], value, i);
    }
  }

  /** The calls made when each of values, in order, is handed to every listener. */
  function FanOutAll<T>(listeners: seq<ListenerId>, values: seq<T>): seq<Delivery<T>>
    decreases |values|
  {
    if values == [] then []
    else FanOutAll(listeners, values[..|values| - 1]) + FanOut(listeners, values[|values| - 1])
  }

  /** The calls made for a value that may be absent: none when it is. */
  function FanOutIfAny<T>(listeners: seq<ListenerId>, o: Option<T>): (r: seq<Delivery<T>>)
    ensures o.None? ==> r == []
  {
    if o.Some? then FanOut(listeners, o.value) else []
  }

  lemma FanOutAllAppend<T>(listeners: seq<ListenerId>, values: seq<T>, extra: Option<T>)
    ensures FanOutAll(listeners, values + Emitted(extra)) == FanOutAll(listeners, values) + FanOutIfAny(listeners, extra)
  {
    if extra.Some? {
      assert (values + [extra.value])[..|values|] == values;
    } else {
      assert values + [] == values;
    }
  }

  /**
   * Concatenation regroups. Called where an inline assertion of the same
   * equation costs the solver far more than this instance.
   */
  lemma AppendAssociative<T>(a: seq<T>, b: seq<T>, c: seq<T>)
    ensures a + b + c == a + (b + c)
  {
  }

  function Max(a: int, b: int): int
  {
    if a < b then b else a
  }
}
