/** queue.c: a linked queue that is entered at `first` and left at `last`; prev points to the next newer entry. */
module LinkQueue {
  import opened Wrappers

  class Entry<T> {
    var crt: T
    var prev: Entry?<T>

    constructor (m: T)
      ensures crt == m && prev == null
    {
      crt := m;
      prev := null;
    }
  }

  class Queue<T> {
    var size: nat
    var first: Entry?<T>
    var last: Entry?<T>
    /** The entries, oldest first, and what they carry. */
    ghost var entries: seq<Entry<T>>
    ghost var contents: seq<T>
    ghost var Repr: set<object>

    ghost predicate Valid()
      reads this, Repr
      ensures Valid() ==> this in Repr && size == |contents|
    {
      && this in Repr
      && size == |entries| == |contents|
      && (forall i :: 0 <= i < |entries| ==> entries[i] in Repr && entries[i].crt == contents[i])
      && (forall i {:trigger entries[i].prev} :: 0 <= i < |entries| - 1 ==> entries[i].prev == entries[i + 1])
      && (forall i, j :: 0 <= i < j < |entries| ==> entries[i] != entries[j])
      && (entries == [] ==> first == null && last == null)
      && (entries != [] ==>
            last == entries[0] && first == entries[|entries| - 1] && entries[|entries| - 1].prev == null)
    }

    /** create_queue */
    constructor ()
      ensures Valid() && fresh(Repr) && contents == []
    {
      size, first, last := 0, null, null;
      entries, contents := [], [];
      Repr := {this};
    }

    method Enqueue(m: T)
      requires Valid()
      modifies Repr
      ensures Valid() && fresh(Repr - old(Repr))
      ensures contents == old(contents) + [m]
    {
      var t := new Entry<T>(m);
      if first == null {
        first, last := t, t;
      } else {
        first.prev := t;
        first := t;
      }
      size := size + 1;
      entries, contents := entries + [t], contents + [m];
      Repr := Repr + {t};
    }

    /** NULL for the empty queue. */
    method Dequeue() returns (m: Option<T>)
      requires Valid()
      modifies Repr
      ensures Valid() && Repr == old(Repr)
      ensures old(contents) == [] ==> m == None && contents == []
      ensures old(contents) != [] ==> m == Some(old(contents)[0]) && contents == old(contents)[1..]
    {
      if first == null {
        return None;
      }
      var t := last;
      if first == last {
        assert |entries| == 1 by { OnlyEntry(); }
        first, last := null, null;
      } else {
        assert entries[0].prev == entries[1];
        last := last.prev;
      }
      size := size - 1;
      entries, contents := entries[1..], contents[1..];
      return Some(t.crt);
    }

    lemma OnlyEntry()
      requires Valid() && first != null && first == last
      ensures |entries| == 1
    {
    }

    /** The oldest entry. */
    method Oldest() returns (m: T)
      requires Valid() && contents != []
      ensures m == contents[0]
    {
      m := last.crt;
    }
  }
}
