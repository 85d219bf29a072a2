/**
 The linked structures of the scheduler: the cells of priority_table.c and
 t_list.c, linked through the field urm ("next").
 */
module LinkedCells {

  class Cell<T> {
    var urm: Cell?<T>
    var info: T

    constructor (info: T)
      ensures this.info == info && this.urm == null
    {
      this.info := info;
      this.urm := null;
    }
  }

  /** The cells cs, linked in order from head, hold exactly the items. */
  ghost predicate Chain<T>(head: Cell?<T>, cs: seq<Cell<T>>, items: seq<T>)
    reads cs
  {
    && |cs| == |items|
    && (head == if cs == [] then null else cs[0])
    && (forall i :: 0 <= i < |cs| ==> cs[i].info == items[i])
    && (forall i {:trigger cs[i].urm} :: 0 <= i < |cs| - 1 ==> cs[i].urm == cs[i + 1])
    && (cs != [] ==> cs[|cs| - 1].urm == null)
    && (forall i, j :: 0 <= i < j < |cs| ==> cs[i] != cs[j])
  }

  lemma Rest<T>(head: Cell<T>, cs: seq<Cell<T>>, items: seq<T>)
    requires Chain(head, cs, items)
    ensures cs != [] && Chain(head.urm, cs[1..], items[1..])
  {
  }

  /** Walk to the last cell. */
  method LastCell<T>(head: Cell<T>, ghost cs: seq<Cell<T>>, ghost items: seq<T>) returns (last: Cell<T>)
    requires Chain(head, cs, items)
    ensures cs != [] && last == cs[|cs| - 1]
  {
    last := head;
    ghost var i := 0;
    while last.urm != null
      invariant 0 <= i < |cs| && last == cs[i]
      decreases |cs| - i
    {
      last := last.urm;
      i := i + 1;
    }
  }
}

/** priority_table.c: one queue for each priority, each a list of cells. */
module PriorityTable {
  import opened LinkedCells

  class Table<T> {
    const v: array<Cell?<T>>
    ghost var cells: seq<seq<Cell<T>>>
    /** What the table holds: lists[p] is the queue of priority p. */
    ghost var lists: seq<seq<T>>
    /** The queue each cell belongs to: queues share no cells. */
    ghost var home: map<Cell<T>, nat>
    ghost var Repr: set<object>

    ghost predicate Valid()
      reads this, Repr
      ensures Valid() ==> this in Repr && |lists| == v.Length
    {
      && this in Repr && v in Repr
      && |cells| == |lists| == v.Length
      && (forall p, i :: 0 <= p < |cells| && 0 <= i < |cells[p]| ==> cells[p][i] in Repr)
      && (forall p :: 0 <= p < |cells| ==> Chain(v[p], cells[p], lists[p]))
      && (forall p, i :: 0 <= p < |cells| && 0 <= i < |cells[p]| ==> cells[p][i] in home && home[cells[p][i]] == p)
    }

    constructor (size: nat)
      ensures Valid() && fresh(Repr)
      ensures lists == seq(size, _ => [])
    {
      v := new Cell?<T>[size](_ => null);
      cells := seq(size, _ => []);
      lists := seq(size, _ => []);
      home := map[];
      new;
      Repr := {this, v};
    }

    /** Hang a new cell behind the last one of a queue. */
    method LinkLast(aux: Cell<T>, priority: nat)
      requires Valid() && priority < v.Length && aux !in Repr && aux.urm == null
      modifies v, cells[priority]
      ensures forall q :: 0 <= q < v.Length && q != priority ==> Chain(v[q], cells[q], lists[q])
      ensures Chain(v[priority], cells[priority] + [aux], lists[priority] + [aux.info])
    {
      var head := v[priority];
      assert Chain(head, cells[priority], lists[priority]);
      if head == null {
        v[priority] := aux;
      } else {
        var last := LastCell(head, cells[priority], lists[priority]);
        assert last in cells[priority];
        last.urm := aux;
      }
    }

    /** priority_table_insert: nothing happens above the top priority. */
    method Insert(info: T, priority: nat)
      requires Valid()
      modifies Repr
      ensures Valid() && fresh(Repr - old(Repr))
      ensures lists ==
              if priority < |old(lists)| then old(lists)[priority := old(lists)[priority] + [info]] else old(lists)
    {
      hide Chain;
      if priority >= v.Length {
        return;
      }
      var aux := new Cell<T>(info);
      LinkLast(aux, priority);
      Record(aux, priority);
    }

    /** The ghost fields follow a new cell at the end of a queue. */
    ghost method Record(aux: Cell<T>, priority: nat)
      requires priority < v.Length && |cells| == |lists| == v.Length
      requires this in Repr && v in Repr && aux !in Repr
      requires forall p, i :: 0 <= p < |cells| && 0 <= i < |cells[p]| ==> cells[p][i] in Repr
      requires forall p, i :: 0 <= p < |cells| && 0 <= i < |cells[p]| ==> cells[p][i] in home && home[cells[p][i]] == p
      requires forall q :: 0 <= q < v.Length && q != priority ==> Chain(v[q], cells[q], lists[q])
      requires Chain(v[priority], cells[priority] + [aux], lists[priority] + [aux.info])
      modifies this
      ensures Valid() && Repr == old(Repr) + {aux}
      ensures lists == old(lists)[priority := old(lists)[priority] + [aux.info]]
    {
      hide Chain;
      cells := cells[priority := cells[priority] + [aux]];
      lists := lists[priority := lists[priority] + [aux.info]];
      home := home[aux := priority];
      Repr := Repr + {aux};
    }

    /** priority_table_remove: the first cell of one queue, if there is one. */
    method Remove(priority: nat)
      requires Valid() && priority < v.Length
      modifies Repr
      ensures Valid() && Repr == old(Repr)
      ensures lists ==
              if old(lists)[priority] == [] then old(lists) else old(lists)[priority := old(lists)[priority][1..]]
    {
      var node := v[priority];
      if node != null {
        Rest(node, cells[priority], lists[priority]);
        v[priority] := node.urm;
        cells := cells[priority := cells[priority][1..]];
        lists := lists[priority := lists[priority][1..]];
      }
    }

    /** get_head: the first cell of the best queue that is not empty. */
    method GetHead() returns (node: Cell?<T>, ghost p: int)
      requires Valid()
      ensures -1 <= p < |lists|
      ensures node == null <==> p == -1
      ensures node == null <==> forall i :: 0 <= i < |lists| ==> lists[i] == []
      ensures node != null ==> lists[p] != [] && node.info == lists[p][0]
      ensures forall i :: p < i < |lists| ==> lists[i] == []
    {
      var k := v.Length;
      while k > 0
        invariant 0 <= k <= v.Length
        invariant forall i :: k <= i < |lists| ==> lists[i] == []
      {
        k := k - 1;
        node := v[k];
        assert Chain(v[k], cells[k], lists[k]);
        if node != null {
          return node, k;
        }
      }
      return null, -1;
    }
  }
}

/** t_list.c: all threads ever created, in creation order. */
module ThreadList {
  import opened LinkedCells

  class List<T> {
    var head: Cell?<T>
    ghost var cells: seq<Cell<T>>
    ghost var items: seq<T>
    ghost var Repr: set<object>

    ghost predicate Valid()
      reads this, Repr
      ensures Valid() ==> this in Repr
    {
      && this in Repr
      && (forall i :: 0 <= i < |cells| ==> cells[i] in Repr)
      && Chain(head, cells, items)
    }

    constructor ()
      ensures Valid() && fresh(Repr) && items == []
    {
      head := null;
      cells, items := [], [];
      Repr := {this};
    }

    /** t_list_add */
    method Add(data: T)
      requires Valid()
      modifies Repr
      ensures Valid() && fresh(Repr - old(Repr))
      ensures items == old(items) + [data]
    {
      var aux := new Cell<T>(data);
      if head == null {
        head := aux;
      } else {
        var last := LastCell(head, cells, items);
        last.urm := aux;
      }
      cells := cells + [aux];
      items := items + [data];
      Repr := Repr + {aux};
    }

    /** Following the list from its k-th cell. */
    lemma At(k: nat)
      requires Valid() && k <= |cells|
      ensures |cells| == |items|
      ensures k == 0 ==> head == if cells == [] then null else cells[0]
      ensures k < |cells| ==> cells[k].info == items[k]
      ensures k < |cells| ==> cells[k].urm == if k + 1 < |cells| then cells[k + 1] else null
    {
    }
  }
}
