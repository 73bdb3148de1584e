/** The value stack as it is written: a vector of fixed initial size and the index of its
    top. A push that meets the end of the vector appends there and leaves the top where it
    is, so the pushed value is lost. */
module Storage {

  /** 256 slots for each of the 64 frames. */
  const CAPACITY: nat := 16384

  datatype Stack<V> = Stack(storage: seq<V>, top: nat)

  predicate Sized<V>(s: Stack<V>) {
    s.top <= |s.storage|
  }

  /** The values between bottom and top. */
  function Live<V>(s: Stack<V>): seq<V>
    requires Sized(s)
  {
    s.storage[..s.top]
  }

  function Pushed<V>(s: Stack<V>, v: V): (r: Stack<V>)
    requires Sized(s)
    ensures Sized(r)
  {
    if s.top == |s.storage| then Stack(s.storage + [v], s.top) else Stack(s.storage[s.top := v], s.top + 1)
  }

  function Peek<V>(s: Stack<V>, index: nat): V
    requires Sized(s) && index < s.top
  {
    s.storage[s.top - 1 - index]
  }

  function Drop<V>(s: Stack<V>, n: nat): (r: Stack<V>)
    requires Sized(s) && n <= s.top
    ensures Sized(r) && Live(r) == Live(s)[..s.top - n]
  {
    s.(top := s.top - n)
  }

  function Put<V>(s: Stack<V>, i: nat, v: V): (r: Stack<V>)
    requires Sized(s) && i < s.top
    ensures Sized(r) && Live(r) == Live(s)[i := v]
  {
    s.(storage := s.storage[i := v])
  }

  /** A push does what a push should exactly while the top is below the end of the vector. */
  lemma PushExact<V>(s: Stack<V>, v: V)
    requires Sized(s)
    ensures Live(Pushed(s, v)) == Live(s) + [v] <==> s.top < |s.storage|
    ensures s.top < |s.storage| ==> |Pushed(s, v).storage| == |s.storage|
  {
    if s.top < |s.storage| {
      assert s.storage[s.top := v][..s.top + 1] == s.storage[..s.top] + [v];
    } else {
      assert |Live(Pushed(s, v))| == |Live(s)|;
    }
  }

  /** The lost value leaves room behind it: the next push takes its place. */
  lemma PushLost<V>(s: Stack<V>, v: V, w: V)
    requires Sized(s) && s.top == |s.storage|
    ensures Live(Pushed(s, v)) == Live(s)
    ensures Live(Pushed(Pushed(s, v), w)) == Live(s) + [w]
  {
    PushExact(Pushed(s, v), w);
  }

  class ValueStack<V> {
    var storage: seq<V>
    var top: nat

    ghost predicate Valid()
      reads this
    {
      Sized(Contents())
    }

    ghost function Contents(): Stack<V>
      reads this
    {
      Stack(storage, top)
    }

    constructor (size: nat, blank: V)
      ensures Valid() && |storage| == size && Live(Contents()) == []
    {
      storage, top := seq(size, i => blank), 0;
    }

    method Push(v: V)
      requires Valid()
      modifies this
      ensures Valid() && Contents() == Pushed(old(Contents()), v)
    {
      if top == |storage| {
        storage := storage + [v];
      } else {
        storage := storage[top := v];
        top := top + 1;
      }
    }

    method Top(index: nat) returns (v: V)
      requires Valid() && index < top
      ensures v == Peek(Contents(), index) == Live(Contents())[top - 1 - index]
    {
      v := storage[top - 1 - index];
    }

    method Pop() returns (v: V)
      requires Valid() && top > 0
      modifies this`top
      ensures Valid() && Contents() == Drop(old(Contents()), 1)
      ensures old(Live(Contents())) == Live(Contents()) + [v]
    {
      v := Top(0);
      top := top - 1;
    }

    method Set(i: nat, v: V)
      requires Valid() && i < top
      modifies this`storage
      ensures Valid() && Contents() == Put(old(Contents()), i, v)
    {
      storage := storage[i := v];
    }

    /** Move the top; downwards it cuts the stack back to a height. */
    method Resize(height: nat)
      requires Valid() && height < |storage|
      modifies this`top
      ensures Valid() && top == height && storage == old(storage)
      ensures height <= old(top) ==> Live(Contents()) == old(Live(Contents()))[..height]
    {
      top := height;
    }
  }
}
