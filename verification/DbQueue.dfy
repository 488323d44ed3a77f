/** dbqueue.c: the doubly linked queue with a header cell. */
module DbQueue {
  import opened MhtDefs

  /** The header cell uses qsize, every other cell uses ptr; the C struct overlays the two. */
  class QNODE {
    var ptr: MHTNode?
    var qsize: nat
    var next: QNODE?
    var prev: QNODE?

    /** makeQNode. */
    constructor (n: MHTNode)
      ensures ptr == n && next == null && prev == null
    {
      ptr := n;
      qsize := 0;
      next := null;
      prev := null;
    }

    /** makeQHeader. */
    constructor Header()
      ensures qsize == 0 && next == null && prev == null
    {
      ptr := null;
      qsize := 0;
      next := null;
      prev := null;
    }
  }

  /** The pair of pointers pQHeader and pQ that every queue operation takes. */
  class Queue {
    var header: QNODE
    var tail: QNODE
    ghost var cells: seq<QNODE>
    ghost var contents: seq<MHTNode>
    ghost var repr: set<QNODE>
    ghost var entered: seq<MHTNode>  // every node that was ever enqueued, in order
    ghost var left: seq<MHTNode>     // every node that has left the queue, in order

    /** The cells, header first, are distinct and linked both ways, tail is the last of them,
        the header counts the others, and contents are the nodes that the others hold. */
    ghost predicate Valid()
      reads this, repr
    {
      && |cells| == |contents| + 1
      && (forall i :: 0 <= i < |cells| ==> cells[i] in repr)
      && cells[0] == header && cells[|contents|] == tail
      && header.qsize == |contents|
      && header.prev == null && tail.next == null
      && (forall i, j :: 0 <= i < j < |cells| ==> cells[i] != cells[j])
      && (forall i :: 0 <= i < |contents| ==> cells[i].next == cells[i + 1])
      && (forall i :: 0 < i < |cells| ==> cells[i].prev == cells[i - 1])
      && (forall i :: 0 < i < |cells| ==> cells[i].ptr == contents[i - 1])
    }

    /** First in, first out: the nodes leave in the order in which they entered.  DequeueSub and
        DequeueAt break this, so it is not part of Valid. */
    ghost predicate Fifo()
      reads this
    {
      entered == left + contents
    }

    /** initQueue. */
    constructor ()
      ensures Valid() && Fifo() && contents == [] && entered == []
      ensures fresh(repr)
    {
      var h := new QNODE.Header();
      header, tail := h, h;
      cells, contents, repr := [h], [], {h};
      entered, left := [], [];
    }

    /** enqueue. */
    method Enqueue(x: QNODE)
      requires Valid()
      requires x !in cells && x.ptr != null
      modifies this, header`qsize, tail`next, x`prev, x`next
      ensures repr == old(repr) + {x} && entered == old(entered) + [x.ptr] && left == old(left)
      ensures Valid()
      ensures header == old(header)
      ensures cells == old(cells) + [x]
      ensures contents == old(contents) + [x.ptr]
      ensures old(Fifo()) ==> Fifo()
    {
      tail.next := x;
      x.prev := tail;
      x.next := null;
      tail := x;
      header.qsize := header.qsize + 1;
      cells := cells + [x];
      repr := repr + {x};
      entered := entered + [x.ptr];
      contents := contents + [x.ptr];
    }

    /** dequeue. */
    method Dequeue() returns (r: QNODE?)
      requires Valid()
      modifies this, repr
      ensures Valid()
      ensures header == old(header)
      ensures repr == old(repr) && entered == old(entered) && forall c :: c in repr ==> c.ptr == old(c.ptr)
      ensures if old(contents) == [] then
          r == null && cells == old(cells) && contents == old(contents)
        else
          && r == old(cells)[1] && r.ptr == old(contents)[0]
          && cells == [header] + old(cells)[2..] && contents == old(contents)[1..]
      ensures left == old(left) + (if r == null then [] else [r.ptr])
      ensures old(Fifo()) ==> Fifo()
      ensures |old(contents)| > 1 ==> tail == old(tail)
    {
      if tail == header {
        return null;
      }
      assert header.next == cells[1];
      assert |contents| > 1 ==> cells[1].next == cells[2];
      r := header.next;
      header.next := r.next;
      if r.next != null {
        r.next.prev := header;
      } else {
        tail := header;
      }
      if header.qsize > 0 {
        header.qsize := header.qsize - 1;
      }
      left := left + [r.ptr];
      cells := [header] + cells[2..];
      contents := contents[1..];
    }

    /** dequeue_sub: the second element leaves the queue. */
    method DequeueSub() returns (r: QNODE?)
      requires Valid()
      modifies this, repr
      ensures Valid()
      ensures header == old(header)
      ensures repr == old(repr) && entered == old(entered) && forall c :: c in repr ==> c.ptr == old(c.ptr)
      ensures if |old(contents)| < 2 then
          r == null && cells == old(cells) && contents == old(contents)
        else
          && r == old(cells)[2] && r.ptr == old(contents)[1]
          && cells == old(cells)[..2] + old(cells)[3..]
          && contents == [old(contents)[0]] + old(contents)[2..]
      ensures left == old(left) + (if r == null then [] else [r.ptr])
    {
      if tail == header {
        return null;
      }
      assert header.next == cells[1];
      assert |contents| > 1 ==> cells[1].next == cells[2];
      assert |contents| > 2 ==> cells[2].next == cells[3];
      var first := header.next;
      r := first.next;
      if r == null {
        return null;
      }
      first.next := r.next;
      if r.next != null {
        r.next.prev := first;
      } else {
        tail := first;
      }
      if header.qsize > 0 {
        header.qsize := header.qsize - 1;
      }
      left := left + [r.ptr];
      cells := cells[..2] + cells[3..];
      contents := [contents[0]] + contents[2..];
    }

    /** dequeue_sppos, as coded: asked to remove the tail, it removes the head instead. */
    method DequeueAt(pos: QNODE, ghost i: nat) returns (r: QNODE?)
      requires Valid()
      requires i < |cells| && pos == cells[i]
      modifies this, repr
      ensures Valid()
      ensures header == old(header)
      ensures repr == old(repr) && entered == old(entered) && forall c :: c in repr ==> c.ptr == old(c.ptr)
      ensures if i == 0 then
          r == null && cells == old(cells) && contents == old(contents)
        else if i < |old(contents)| then
          && r == pos && r.ptr == old(contents)[i - 1]
          && cells == old(cells)[..i] + old(cells)[i + 1..]
          && contents == old(contents)[..i - 1] + old(contents)[i..]
        else
          && r == old(cells)[1]
          && cells == [header] + old(cells)[2..] && contents == old(contents)[1..]
      ensures left == old(left) + (if r == null then [] else [r.ptr])
      ensures i > 0 ==> (r == pos <==> i < |old(contents)| || |old(contents)| == 1)
    {
      if tail == header {
        return null;
      }
      if pos == header {
        return null;
      }
      assert pos.prev == cells[i - 1];
      assert i < |contents| ==> pos.next == cells[i + 1];
      r := pos;
      if pos.next != null {
        pos.prev.next := pos.next;
        pos.next.prev := pos.prev;
      } else {
        r := Dequeue();
        return;
      }
      if header.qsize > 0 {
        header.qsize := header.qsize - 1;
      }
      left := left + [r.ptr];
      cells := cells[..i] + cells[i + 1..];
      contents := contents[..i - 1] + contents[i..];
    }

    /** peekQueue. */
    function Peek(): (r: QNODE?)
      requires Valid()
      reads this, repr
      ensures if contents == [] then r == null else r == cells[1] && r.ptr == contents[0]
    {
      header.next
    }

    /** search_node_by_level: the element of the given level that is nearest to the tail. */
    method SearchByLevel(level: int) returns (r: QNODE?, ghost i: nat)
      requires Valid()
      ensures r == null ==> level < 0 || forall j :: 0 <= j < |contents| ==> contents[j].level != level
      ensures r != null ==>
        && i < |contents| && r == cells[i + 1] && contents[i].level == level
        && forall j :: i < j < |contents| ==> contents[j].level != level
    {
      i := |contents|;
      if level < 0 {
        return null, i;
      }
      r := tail;
      while r != header
        invariant i <= |contents| && r == cells[i]
        invariant forall j :: i <= j < |contents| ==> contents[j].level != level
        decreases i
      {
        i := i - 1;
        if r.ptr.level == level {
          return;
        }
        r := r.prev;
      }
      r := null;
    }

    /** freeQueue: everything left in the queue is released, MHT nodes included. */
    method Free() returns (freed: seq<MHTNode>)
      requires Valid()
      modifies this, repr
      ensures freed == old(contents)
      ensures contents == [] && entered == old(entered) && left == old(left) + freed
    {
      freed := [];
      var c := Dequeue();
      while c != null
        invariant Valid()
        invariant repr == old(repr) && entered == old(entered)
        invariant left == old(left) + freed + (if c == null then [] else [c.ptr])
        invariant c != null ==> c.ptr != null && c !in cells && freed + [c.ptr] + contents == old(contents)
        invariant c == null ==> contents == [] && freed == old(contents)
        decreases |contents|, c != null
      {
        freed := freed + [c.ptr];
        c := Dequeue();
      }
    }
  }

  /** lookBackward. */
  function LookBackward(c: QNODE?): QNODE?
    reads c
  {
    if c == null then null else c.prev
  }
}
