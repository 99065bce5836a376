/** The circular queue of the search command (src/usermode/find.c:3-42). */
module CircularQueue {
  const CAPACITY: nat := 100
  const IDX_UNDEF: int := -1

  // The elements between two positions of the ring, both included.
  ghost function Window(b: seq<nat>, head: int, tail: int): (s: seq<nat>)
    requires |b| == CAPACITY && 0 <= head < CAPACITY && 0 <= tail < CAPACITY
    ensures 0 < |s| <= CAPACITY && s[0] == b[head]
    ensures |s| == CAPACITY <==> tail == if head == 0 then CAPACITY - 1 else head - 1
    ensures |s| == 1 <==> head == tail
  {
    if head <= tail then b[head..tail + 1] else b[head..] + b[..tail + 1]
  }

  lemma PopFront(b: seq<nat>, head: int, tail: int)
    requires |b| == CAPACITY && 0 <= head < CAPACITY && 0 <= tail < CAPACITY && head != tail
    ensures Window(b, head, tail) == [b[head]] + Window(b, (head + 1) % CAPACITY, tail)
  {
    var next := if head == CAPACITY - 1 then 0 else head + 1;
    assert next == (head + 1) % CAPACITY;
    if head < tail {
      assert b[head..tail + 1] == [b[head]] + b[next..tail + 1];
    } else if head == CAPACITY - 1 {
      assert b[head..] == [b[head]] && b[next..tail + 1] == b[..tail + 1];
    } else {
      assert b[head..] == [b[head]] + b[next..];
      assert ([b[head]] + b[next..]) + b[..tail + 1] == [b[head]] + (b[next..] + b[..tail + 1]);
    }
  }

  lemma PushBack(b: seq<nat>, head: int, tail: int, val: nat)
    requires |b| == CAPACITY && 0 <= head < CAPACITY && 0 <= tail < CAPACITY && |Window(b, head, tail)| < CAPACITY
    ensures Window(b[(tail + 1) % CAPACITY := val], head, (tail + 1) % CAPACITY) == Window(b, head, tail) + [val]
  {
    var after := b[(tail + 1) % CAPACITY := val];
    if tail == CAPACITY - 1 {
      assert after[..1] == [val] && after[head..] == b[head..];
    } else if head <= tail {
      assert after[head..tail + 2] == b[head..tail + 1] + [val];
    } else {
      assert after[head..] == b[head..] && after[..tail + 2] == b[..tail + 1] + [val];
    }
  }

  lemma Overwrite(b: seq<nat>, head: int, tail: int, val: nat)
    requires |b| == CAPACITY && 0 <= head < CAPACITY && 0 <= tail < CAPACITY && |Window(b, head, tail)| == CAPACITY
    ensures (tail + 1) % CAPACITY == head
    ensures Window(b[head := val], head, head) == [val]
  {}

  // What appending does: a full ring is overwritten, and only the new element is left of it.
  function Pushed(q: seq<nat>, val: nat): seq<nat> {
    if |q| == CAPACITY then [val] else q + [val]
  }

  function PushAll(q: seq<nat>, vals: seq<nat>): seq<nat> {
    if vals == [] then q else Pushed(PushAll(q, vals[..|vals| - 1]), vals[|vals| - 1])
  }

  // What is left is the end of everything appended, and all of it exactly if there was room.
  lemma {:induction false} PushAllKeeps(q: seq<nat>, vals: seq<nat>) returns (lost: seq<nat>)
    requires |q| <= CAPACITY
    ensures lost + PushAll(q, vals) == q + vals && |PushAll(q, vals)| <= CAPACITY
    ensures lost == [] <==> |q| + |vals| <= CAPACITY
    decreases |vals|
  {
    if vals == [] {
      lost := [];
    } else {
      var init, last := vals[..|vals| - 1], vals[|vals| - 1];
      lost := PushAllKeeps(q, init);
      var p := PushAll(q, init);
      assert q + vals == (q + init) + [last];
      if |p| == CAPACITY {
        lost := lost + p;
      } else {
        assert (lost + p) + [last] == lost + (p + [last]);
      }
    }
  }

  class Queue {
    const buffer: array<nat>
    var idxHead: int
    var idxTail: int

    ghost predicate Valid()
      reads this
    {
      && buffer.Length == CAPACITY
      && ((idxHead == IDX_UNDEF && idxTail == IDX_UNDEF) || (0 <= idxHead < CAPACITY && 0 <= idxTail < CAPACITY))
    }

    // The elements, oldest first.
    ghost function Contents(): (s: seq<nat>)
      reads this, buffer
      requires Valid()
    {
      if idxHead == IDX_UNDEF then [] else Window(buffer[..], idxHead, idxTail)
    }

    constructor ()
      ensures Valid() && Contents() == [] && fresh(buffer)
    {
      buffer := new nat[CAPACITY];
      idxHead, idxTail := IDX_UNDEF, IDX_UNDEF;
    }

    method IsEmpty() returns (b: bool)
      requires Valid()
      ensures b <==> Contents() == []
    {
      return idxHead == IDX_UNDEF && idxTail == IDX_UNDEF;
    }

    method IsFull() returns (b: bool)
      requires Valid()
      ensures b <==> |Contents()| == 100
    {
      if idxHead == 0 {
        return idxTail == CAPACITY - 1;
      } else {
        return idxTail == idxHead - 1;
      }
    }

    method Enqueue(val: nat)
      requires Valid()
      modifies this, buffer
      ensures Valid() && Contents() == Pushed(old(Contents()), val)
    {
      hide Window;
      var empty := IsEmpty();
      if empty {
        idxHead, idxTail := 0, 0;
      } else {
        if |Contents()| < CAPACITY {
          PushBack(buffer[..], idxHead, idxTail, val);
        } else {
          Overwrite(buffer[..], idxHead, idxTail, val);
        }
        idxTail := (idxTail + 1) % CAPACITY;
      }
      buffer[idxTail] := val;
    }

    method Dequeue() returns (val: nat)
      requires Valid() && Contents() != []
      modifies this
      ensures Valid() && [val] + Contents() == old(Contents())
    {
      hide Window;
      val := buffer[idxHead];
      if idxHead == idxTail {
        idxHead, idxTail := IDX_UNDEF, IDX_UNDEF;
      } else {
        PopFront(buffer[..], idxHead, idxTail);
        idxHead := (idxHead + 1) % CAPACITY;
      }
    }
  }
}
