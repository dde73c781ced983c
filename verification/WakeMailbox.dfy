/**
 The wake detector's mailbox: a fixed array with a head and a size that holds the newest frames.
 */
module WakeMailbox {
  import opened Wrappers

  const CAPACITY: nat := 9

  /** What the mailbox holds after a frame arrives: the newest `CAPACITY` frames, oldest first. */
  function Posted<T>(box: seq<T>, x: T): (r: seq<T>)
    ensures |box| <= CAPACITY ==> |r| <= CAPACITY
  {
    (if |box| == CAPACITY then box[1..] else box) + [x]
  }

  /** The newest `CAPACITY` of a sequence of frames. */
  function Newest<T>(all: seq<T>): seq<T> {
    if |all| <= CAPACITY then all else all[|all| - CAPACITY..]
  }

  /** Posting keeps exactly the newest frames of all that were posted. */
  lemma PostedIsNewest<T>(all: seq<T>, x: T)
    ensures Posted(Newest(all), x) == Newest(all + [x])
  {
    if |all| >= CAPACITY {
      assert Newest(all) == all[|all| - CAPACITY..];
      assert Newest(all)[1..] == all[|all| - CAPACITY + 1..];
    }
  }

  /** The slot that lies `i` after `head` in the circle. */
  function Slot(head: nat, i: nat): (k: nat)
    requires head < CAPACITY && i <= CAPACITY
    ensures k < CAPACITY && k == (head + i) % CAPACITY
  {
    if head + i < CAPACITY then head + i else head + i - CAPACITY
  }

  /** The frames held in the circle, oldest first. */
  function Held<T>(slots: seq<T>, head: nat, size: nat): (r: seq<T>)
    requires |slots| == CAPACITY && head < CAPACITY && size <= CAPACITY
    ensures |r| == size
    ensures forall i | 0 <= i < size :: r[i] == slots[Slot(head, i)]
  {
    if size == 0 then [] else Held(slots, head, size - 1) + [slots[Slot(head, size - 1)]]
  }

  lemma HeldDropped<T>(slots: seq<T>, head: nat, size: nat, blank: T)
    requires |slots| == CAPACITY && head < CAPACITY && 0 < size <= CAPACITY
    ensures Held(slots, head, size)[0] == slots[head]
    ensures Held(slots[head := blank], Slot(head, 1), size - 1) == Held(slots, head, size)[1..]
  {
    var a, b := Held(slots[head := blank], Slot(head, 1), size - 1), Held(slots, head, size)[1..];
    forall i | 0 <= i < size - 1 ensures a[i] == b[i] {
      assert Slot(Slot(head, 1), i) == Slot(head, i + 1) != head;
    }
  }

  lemma HeldAdded<T>(slots: seq<T>, head: nat, size: nat, x: T)
    requires |slots| == CAPACITY && head < CAPACITY && size < CAPACITY
    ensures Held(slots[Slot(head, size) := x], head, size + 1) == Held(slots, head, size) + [x]
  {
    var a, b := Held(slots[Slot(head, size) := x], head, size + 1), Held(slots, head, size) + [x];
    forall i | 0 <= i < size ensures a[i] == b[i] {
      assert Slot(head, i) != Slot(head, size);
    }
  }

  class Mailbox<T> {
    const slots: array<T>
    const blank: T
    var head: nat
    var size: nat

    ghost predicate Valid() reads this { slots.Length == CAPACITY && head < CAPACITY && size <= CAPACITY }

    ghost function Contents(): seq<T>
      requires Valid()
      reads this, slots
    {
      Held(slots[..], head, size)
    }

    constructor (empty: T)
      ensures Valid() && fresh(slots) && Contents() == []
    {
      slots := new T[CAPACITY](_ => empty);
      blank := empty;
      head, size := 0, 0;
    }

    method DropOldest()
      requires Valid() && size > 0
      modifies this, slots
      ensures Valid() && size == old(size) - 1 && Contents() == old(Contents())[1..]
    {
      hide Held;
      HeldDropped(slots[..], head, size, blank);
      ghost var was := slots[..];
      slots[head] := blank;
      assert slots[..] == was[head := blank];
      head := (head + 1) % CAPACITY;
      size := size - 1;
    }

    method Post(x: T) returns (droppedOldest: bool)
      requires Valid()
      modifies this, slots
      ensures Valid()
      ensures Contents() == Posted(old(Contents()), x) && droppedOldest == (old(size) == CAPACITY)
    {
      hide Held;
      droppedOldest := false;
      if size == CAPACITY {
        DropOldest();
        droppedOldest := true;
      }
      var tail := (head + size) % CAPACITY;
      HeldAdded(slots[..], head, size, x);
      ghost var was := slots[..];
      slots[tail] := x;
      assert slots[..] == was[tail := x];
      size := size + 1;
    }

    method Take() returns (x: Option<T>)
      requires Valid()
      modifies this, slots
      ensures Valid()
      ensures old(Contents()) == [] ==> x == None && Contents() == []
      ensures old(Contents()) != [] ==> x == Some(old(Contents())[0]) && Contents() == old(Contents())[1..]
    {
      hide Held;
      if size == 0 { return None; }
      HeldDropped(slots[..], head, size, blank);
      x := Some(slots[head]);
      DropOldest();
    }

    method Clear()
      requires Valid()
      modifies this, slots
      ensures Valid() && Contents() == [] && forall i | 0 <= i < CAPACITY :: slots[i] == blank
    {
      for i := 0 to CAPACITY
        invariant Valid() && forall k | 0 <= k < i :: slots[k] == blank
      {
        slots[i] := blank;
      }
      head := 0;
      size := 0;
    }
  }
}
