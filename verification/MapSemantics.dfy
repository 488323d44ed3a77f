/** Lookups and updates on a tree behave as operations on a finite map. */
module MapSemantics {
  import opened Bytes
  import opened Seqs
  import opened MerkleTree
  import opened MerkleIndex

  const TWO31: int := 0x8000_0000
  const TWO32: int := 0x1_0000_0000

  /** updateMTree compares signed ints. */
  function Signed(x: int): int { x }

  /** getMHash compares unsigned ints, so a signed index is converted first: modulo 2^32. */
  function Unsigned(x: int): int { if x < 0 then x + TWO32 else x }

  /** The signed int with a given unsigned representation. */
  function FromUnsigned(u: int): int { if u < TWO31 then u else u - TWO32 }

  /** For ints, Unsigned is reduction modulo 2^32, and FromUnsigned undoes it. */
  lemma UnsignedIsModular(x: int)
    requires -0x8000_0000 <= x < 0x8000_0000
    ensures Unsigned(x) == x % 0x1_0000_0000 && FromUnsigned(Unsigned(x)) == x
  {
  }

  predicate IsInt(x: int) { -TWO31 <= x < TWO31 }

  predicate IsUnsigned(u: int) { 0 <= u < TWO32 }

  predicate Ints(ls: seq<Record>) { forall i :: 0 <= i < |ls| ==> IsInt(ls[i].index) }

  /** No index is negative, or all are. */
  predicate UniformSign(ls: seq<Record>) {
    (forall i :: 0 <= i < |ls| ==> ls[i].index >= 0) || (forall i :: 0 <= i < |ls| ==> ls[i].index < 0)
  }

  lemma UniformAscending(ls: seq<Record>)
    requires Ints(ls) && UniformSign(ls) && Ascending(ls, Signed)
    ensures Ascending(ls, Unsigned)
  {
    forall i, j | 0 <= i < j < |ls|
      ensures Unsigned(ls[i].index) < Unsigned(ls[j].index)
    {
      assert Signed(ls[i].index) < Signed(ls[j].index);
    }
  }

  lemma SignsOfSum(a: seq<Record>, b: seq<Record>)
    requires a != [] && b != [] && UniformSign(a) && UniformSign(b)
    ensures UniformSign(a + b) <==> (a[|a| - 1].index >= 0 <==> b[0].index >= 0)
  {
    assert (a + b)[|a| - 1] == a[|a| - 1];
    assert (a + b)[|a|] == b[0];
  }

  /** The two parts of an ordered tree whose indices have both signs only between them. */
  lemma SignBoundary(t: Tree)
    requires t.Node? && Indexed(t) && Ascending(Leaves(t), Signed) && Ints(Leaves(t)) && !UniformSign(Leaves(t))
    requires UniformSign(Leaves(t.left)) && UniformSign(Leaves(t.right))
    ensures Unsigned(Leaves(t.right)[0].index) <= Unsigned(t.index)
  {
    SeparatorBounds(t, Signed);
    var a, b := Leaves(t.left), Leaves(t.right);
    LastIndexIsLastLeaf(t.left);
    assert Leaves(t) == a + b;
    assert Signed(t.index) < Signed(b[0].index);
    SignsOfSum(a, b);
    IntsOfSum(a, b);
    assert IsInt(a[|a| - 1].index) && IsInt(b[0].index);
  }

  lemma OneSign(ls: seq<Record>)
    requires |ls| == 1
    ensures UniformSign(ls)
  {
  }

  /** With indices of both signs the unsigned descent misses some leaf. */
  lemma {:induction false} MixedSignsMiss(t: Tree) returns (j: nat)
    requires Indexed(t) && Ascending(Leaves(t), Signed) && Ints(Leaves(t)) && !UniformSign(Leaves(t))
    ensures j < |Leaves(t)| && Position(t, Unsigned(Leaves(t)[j].index), Unsigned) != j
  {
    hide Unsigned, Ints, UniformSign, Ascending, Position;
    if t.Leaf? {
      OneSign(Leaves(t));
    }
    assert Indexed(t.left) && Indexed(t.right);
    hide Indexed;
    var a, b := Leaves(t.left), Leaves(t.right);
    SeparatorBounds(t, Signed);
    assert Leaves(t) == a + b;
    IntsOfSum(a, b);
    if !UniformSign(a) {
      j := MixedSignsMiss(t.left);
      PositionInNode(t, Unsigned(a[j].index), Unsigned);
    } else if !UniformSign(b) {
      j := MixedSignsMiss(t.right);
      PositionInNode(t, Unsigned(b[j].index), Unsigned);
      j := |a| + j;
    } else {
      SignBoundary(t);
      PositionInNode(t, Unsigned(b[0].index), Unsigned);
      j := |a|;
    }
  }

  lemma PositionInNode(t: Tree, k: int, ord: Order)
    requires t.Node?
    ensures Position(t, k, ord) ==
      if k <= ord(t.index) then Position(t.left, k, ord) else |Leaves(t.left)| + Position(t.right, k, ord)
  {
  }

  lemma IntsOfSum(a: seq<Record>, b: seq<Record>)
    requires Ints(a + b)
    ensures Ints(a) && Ints(b)
  {
    assert forall i :: 0 <= i < |a| ==> (a + b)[i] == a[i];
    assert forall i :: 0 <= i < |b| ==> (a + b)[|a| + i] == b[i];
  }

  /** A lookup of a stored index that descends to another leaf fails. */
  lemma MissedLeafFails(t: Tree, j: nat)
    requires Ascending(Leaves(t), Signed) && Ints(Leaves(t)) && j < |Leaves(t)|
    requires Position(t, Unsigned(Leaves(t)[j].index), Unsigned) != j
    ensures Lookup(t, Unsigned(Leaves(t)[j].index), Unsigned) == None
  {
    var ls := Leaves(t);
    var p := Position(t, Unsigned(ls[j].index), Unsigned);
    assert Signed(ls[p].index) != Signed(ls[j].index);
    hide Leaves, Position;
    assert IsInt(ls[p].index) && IsInt(ls[j].index);
  }

  /** getMHash finds every stored leaf if and only if the stored indices do not have both signs. */
  lemma GetFindsAllLeaves(t: Tree)
    requires Indexed(t) && Ascending(Leaves(t), Signed) && Ints(Leaves(t))
    ensures (forall j :: 0 <= j < |Leaves(t)| ==>
              Lookup(t, Unsigned(Leaves(t)[j].index), Unsigned) == Some(Leaves(t)[j].hash))
            <==> UniformSign(Leaves(t))
  {
    hide Leaves, Lookup, Position, Indexed, Ascending, Unsigned;
    if UniformSign(Leaves(t)) {
      UniformAscending(Leaves(t));
      forall j | 0 <= j < |Leaves(t)|
        ensures Lookup(t, Unsigned(Leaves(t)[j].index), Unsigned) == Some(Leaves(t)[j].hash)
      {
        SearchIsLookup(t, Unsigned(Leaves(t)[j].index), Unsigned);
      }
    } else {
      var j := MixedSignsMiss(t);
      MissedLeafFails(t, j);
    }
  }

  // ----- The map -----

  function Dict(ls: seq<Record>): map<int, Digest> {
    if ls == [] then map[] else Dict(Init(ls))[Last(ls).index := Last(ls).hash]
  }

  lemma {:induction false} DictHolds(ls: seq<Record>, j: nat)
    requires Ascending(ls, Signed) && j < |ls|
    ensures ls[j].index in Dict(ls) && Dict(ls)[ls[j].index] == ls[j].hash
  {
    if j < |ls| - 1 {
      DictHolds(Init(ls), j);
      assert Signed(ls[j].index) < Signed(Last(ls).index);
    }
  }

  lemma {:induction false} DictDomain(ls: seq<Record>, i: int)
    ensures i in Dict(ls) <==> exists j :: 0 <= j < |ls| && ls[j].index == i
  {
    if ls != [] {
      DictDomain(Init(ls), i);
      assert forall j :: 0 <= j < |Init(ls)| ==> ls[j] == Init(ls)[j];
      assert ls[|ls| - 1] == Last(ls);
    }
  }

  lemma SameDomain(ls: seq<Record>, us: seq<Record>)
    requires |ls| == |us| && forall j :: 0 <= j < |ls| ==> ls[j].index == us[j].index
    ensures Dict(ls).Keys == Dict(us).Keys
  {
    if ls != [] {
      SameDomain(Init(ls), Init(us));
    }
  }

  lemma DictUpdate(ls: seq<Record>, p: nat, x: Digest)
    requires Ascending(ls, Signed) && p < |ls|
    ensures Dict(ls[p := Record(ls[p].index, x)]) == Dict(ls)[ls[p].index := x]
  {
    var us := ls[p := Record(ls[p].index, x)];
    SameDomain(ls, us);
    DictHolds(ls, p);
    forall i | i in Dict(us)
      ensures Dict(us)[i] == if i == ls[p].index then x else Dict(ls)[i]
    {
      DictDomain(us, i);
      var j :| 0 <= j < |us| && us[j].index == i;
      assert ls[j].index == i;
      assert j != p ==> Signed(ls[j].index) != Signed(ls[p].index);
      DictHolds(us, j);
      DictHolds(ls, j);
    }
  }

  // ----- Runs -----

  /** A call of getMHash or of updateMTree. */
  datatype Op = Get(key: int) | Set(index: int, hash: Digest)

  /** What a sequence of calls does to a tree, and what its lookups return. */
  function TreeRun(t: Tree, ops: seq<Op>, h: Combiner): (Tree, seq<Option<Digest>>) {
    if ops == [] then (t, [])
    else
      var (u, outs) := TreeRun(t, Init(ops), h);
      match Last(ops)
      case Get(key) => (u, outs + [Lookup(u, key, Unsigned)])
      case Set(index, hash) => (Update(u, index, hash, Signed, h), outs)
  }

  /** The same calls on a map of which lookups see the indices in seen: a lookup reads, an update of an
      index in the domain writes. */
  function MapRun(m: map<int, Digest>, seen: set<int>, ops: seq<Op>): (map<int, Digest>, seq<Option<Digest>>) {
    if ops == [] then (m, [])
    else
      var (w, outs) := MapRun(m, seen, Init(ops));
      match Last(ops)
      case Get(key) =>
        var i := FromUnsigned(key);
        (w, outs + [if i in w && i in seen then Some(w[i]) else None])
      case Set(index, hash) => (if index in w then w[index := hash] else w, outs)
  }

  predicate Searchable(t: Tree) { Indexed(t) && Ascending(Leaves(t), Signed) }

  /** The unsigned descent for index i reaches a leaf with that index. */
  predicate Visible(t: Tree, i: int) {
    Find(t, Unsigned(i), Unsigned).index == i
  }

  /** The indices that lookups see. */
  function Seen(t: Tree): set<int> {
    set i | i in Dict(Leaves(t)) && Visible(t, i)
  }

  lemma FindIsLeaf(t: Tree, k: int, ord: Order)
    ensures var leaf := Find(t, k, ord); Leaves(t)[Position(t, k, ord)] == Record(leaf.index, leaf.hash)
  {
  }

  /** A lookup in an ordered tree is a lookup among the visible entries of the map. */
  lemma GetIsMapLookup(t: Tree, key: int)
    requires Searchable(t) && Ints(Leaves(t)) && IsUnsigned(key)
    ensures var m, i := Dict(Leaves(t)), FromUnsigned(key);
      Lookup(t, key, Unsigned) == if i in m && Visible(t, i) then Some(m[i]) else None
  {
    hide Leaves, Dict, Position, Find;
    var p := Position(t, key, Unsigned);
    FindIsLeaf(t, key, Unsigned);
    DictHolds(Leaves(t), p);
    assert IsInt(Leaves(t)[p].index);
    if FromUnsigned(key) in Dict(Leaves(t)) {
      DictDomain(Leaves(t), FromUnsigned(key));
    }
  }

  /** Without indices of both signs lookups see the whole map. */
  lemma AllSeen(t: Tree)
    requires Searchable(t) && Ints(Leaves(t)) && UniformSign(Leaves(t))
    ensures Seen(t) == Dict(Leaves(t)).Keys
  {
    hide Leaves, Dict, Position, Find, Ascending, UniformSign, Ints, Unsigned;
    UniformAscending(Leaves(t));
    forall i | i in Dict(Leaves(t))
      ensures Visible(t, i)
    {
      DictDomain(Leaves(t), i);
      var j :| 0 <= j < |Leaves(t)| && Leaves(t)[j].index == i;
      FindsEveryLeaf(t, j, Unsigned);
      FindIsLeaf(t, Unsigned(i), Unsigned);
    }
  }

  /** Lookups see the index of a leaf if and only if the unsigned descent reaches that leaf. */
  lemma SeenIsReached(t: Tree, j: nat)
    requires Searchable(t) && j < |Leaves(t)|
    ensures Leaves(t)[j].index in Seen(t) <==> Reaches(t, j, Unsigned)
  {
    hide Leaves, Dict, Position, Find, Unsigned;
    var p := Position(t, Unsigned(Leaves(t)[j].index), Unsigned);
    DictHolds(Leaves(t), j);
    FindIsLeaf(t, Unsigned(Leaves(t)[j].index), Unsigned);
    assert p != j ==> Signed(Leaves(t)[p].index) != Signed(Leaves(t)[j].index);
  }

  lemma ChangedLeafKeepsOrder(ls: seq<Record>, p: nat, x: Digest)
    requires p < |ls|
    ensures var us := ls[p := Record(ls[p].index, x)];
      && (Ascending(ls, Signed) ==> Ascending(us, Signed)) && (Ints(ls) ==> Ints(us))
  {
    var us := ls[p := Record(ls[p].index, x)];
    assert forall j :: 0 <= j < |ls| ==> us[j].index == ls[j].index;
  }

  lemma SetKeepsVisible(t: Tree, index: int, x: Digest, h: Combiner, i: int)
    ensures Visible(Update(t, index, x, Signed, h), i) <==> Visible(t, i)
  {
    hide Leaves, Find, Put, Position;
    var u := Put(t, index, x, Signed, h);
    PutKeepsSearch(t, index, x, Signed, h, Unsigned(i), Unsigned);
    PutLeaves(t, index, x, Signed, h);
    FindIsLeaf(t, Unsigned(i), Unsigned);
    FindIsLeaf(u, Unsigned(i), Unsigned);
  }

  lemma SetIsMapUpdate(t: Tree, index: int, x: Digest, h: Combiner)
    requires Searchable(t)
    ensures var m, u := Dict(Leaves(t)), Update(t, index, x, Signed, h);
      && Searchable(u) && (Ints(Leaves(t)) ==> Ints(Leaves(u)))
      && Dict(Leaves(u)) == if index in m then m[index := x] else m
  {
    hide Leaves, Dict, Ascending, Ints, Put;
    var ls, p := Leaves(t), Position(t, index, Signed);
    SearchIsLookup(t, index, Signed);
    DictDomain(ls, index);
    if Signed(ls[p].index) == index {
      PutLeaves(t, index, x, Signed, h);
      PutKeepsSearch(t, index, x, Signed, h, index, Signed);
      DictUpdate(ls, p, x);
      ChangedLeafKeepsOrder(ls, p, x);
    }
  }

  /** Over any run on an ordered tree the leaves hold the map, whatever the lookups ask for. */
  lemma {:induction false} RunHoldsMap(t: Tree, ops: seq<Op>, h: Combiner)
    requires Searchable(t)
    ensures var u := TreeRun(t, ops, h).0;
      && Searchable(u) && (Ints(Leaves(t)) ==> Ints(Leaves(u)))
      && Dict(Leaves(u)) == MapRun(Dict(Leaves(t)), Seen(t), ops).0
    ensures forall i :: Visible(TreeRun(t, ops, h).0, i) <==> Visible(t, i)
  {
    hide Searchable, Leaves, Ints, Dict, Lookup, Update, Seen, Visible;
    if ops != [] {
      RunHoldsMap(t, Init(ops), h);
      if Last(ops).Set? {
        var u, index, x := TreeRun(t, Init(ops), h).0, Last(ops).index, Last(ops).hash;
        SetIsMapUpdate(u, index, x, h);
        forall i {
          SetKeepsVisible(u, index, x, h, i);
        }
      }
    }
  }

  /** Over any run on an ordered tree of ints lookups return what the map returns for the indices they see. */
  lemma {:induction false} RunIsMapRun(t: Tree, ops: seq<Op>, h: Combiner)
    requires Searchable(t) && Ints(Leaves(t))
    requires forall i :: 0 <= i < |ops| && ops[i].Get? ==> IsUnsigned(ops[i].key)
    ensures var (u, outs) := TreeRun(t, ops, h); var (m, answers) := MapRun(Dict(Leaves(t)), Seen(t), ops);
      Searchable(u) && outs == answers && Dict(Leaves(u)) == m
  {
    hide Searchable, Leaves, Ints, Dict, Lookup, Update, Visible;
    RunHoldsMap(t, ops, h);
    if ops != [] {
      RunIsMapRun(t, Init(ops), h);
      RunKeepsDomain(Dict(Leaves(t)), Seen(t), Init(ops));
      if Last(ops).Get? {
        assert ops[|ops| - 1].Get?;
        RunHoldsMap(t, Init(ops), h);
        GetIsMapLookup(TreeRun(t, Init(ops), h).0, Last(ops).key);
      }
    }
  }

  /** A run keeps the domain of the map. */
  lemma {:induction false} RunKeepsDomain(m: map<int, Digest>, seen: set<int>, ops: seq<Op>)
    ensures MapRun(m, seen, ops).0.Keys == m.Keys
  {
    if ops != [] {
      RunKeepsDomain(m, seen, Init(ops));
    }
  }

  /** A run keeps levels, and keeps the tree consistent if it was. */
  lemma {:induction false} RunKeepsTree(t: Tree, ops: seq<Op>, h: Combiner)
    ensures var u := TreeRun(t, ops, h).0;
      && u.level == t.level
      && (Perfect(t) ==> Perfect(u)) && (Indexed(t) ==> Indexed(u)) && (Hashed(t, h) ==> Hashed(u, h))
  {
    if ops != [] {
      RunKeepsTree(t, Init(ops), h);
      var u := TreeRun(t, Init(ops), h).0;
      if Last(ops).Set? {
        var k, x := Last(ops).index, Last(ops).hash;
        PutKeepsSearch(u, k, x, Signed, h, k, Signed);
        if Hashed(u, h) {
          PutKeepsHashed(u, k, x, Signed, h);
        }
      }
    }
  }

  // ----- Hashes over a run -----

  /** The indices that a run writes: those of the domain that occur in an update. */
  function Written(domain: set<int>, ops: seq<Op>): set<int> {
    if ops == [] then {}
    else
      match Last(ops)
      case Get(_) => Written(domain, Init(ops))
      case Set(index, _) => Written(domain, Init(ops)) + if index in domain then {index} else {}
  }

  lemma {:induction false} WrittenExactly(domain: set<int>, ops: seq<Op>, i: int)
    ensures i in Written(domain, ops) <==> i in domain && exists j :: 0 <= j < |ops| && ops[j].Set? && ops[j].index == i
  {
    if ops != [] {
      WrittenExactly(domain, Init(ops), i);
      assert forall j :: 0 <= j < |Init(ops)| ==> ops[j] == Init(ops)[j];
      assert ops[|ops| - 1] == Last(ops);
    }
  }

  function UpTo(ks: set<int>, m: int): set<int> { set k | k in ks && k <= m }

  function Above(ks: set<int>, m: int): set<int> { set k | k in ks && k > m }

  /** Where the descent of a key in ks passes, a node stores the combination by g of its children's
      hashes; elsewhere the combination by h. */
  predicate HashedBy(t: Tree, ks: set<int>, g: Combiner, h: Combiner) {
    match t
    case Leaf(_, _, _) => true
    case Node(index, _, hash, l, r) =>
      && hash == (if ks == {} then h(l.hash, r.hash) else g(l.hash, r.hash))
      && HashedBy(l, UpTo(ks, index), g, h)
      && HashedBy(r, Above(ks, index), g, h)
  }

  lemma {:induction false} HashedByNone(t: Tree, g: Combiner, h: Combiner)
    requires Hashed(t, h)
    ensures HashedBy(t, {}, g, h)
  {
    if t.Node? {
      HashedByNone(t.left, g, h);
      HashedByNone(t.right, g, h);
      assert UpTo({}, t.index) == {} == Above({}, t.index);
    }
  }

  lemma {:induction false} PutHashedBy(t: Tree, ks: set<int>, k: int, x: Digest, g: Combiner, h: Combiner)
    requires HashedBy(t, ks, g, h)
    ensures HashedBy(Put(t, k, x, Signed, g), ks + {k}, g, h)
  {
    if t.Node? {
      var m := t.index;
      if k <= m {
        PutHashedBy(t.left, UpTo(ks, m), k, x, g, h);
        assert UpTo(ks + {k}, m) == UpTo(ks, m) + {k};
        assert Above(ks + {k}, m) == Above(ks, m);
      } else {
        PutHashedBy(t.right, Above(ks, m), k, x, g, h);
        assert Above(ks + {k}, m) == Above(ks, m) + {k};
        assert UpTo(ks + {k}, m) == UpTo(ks, m);
      }
    }
  }

  /** An update succeeds exactly on the indices of the map. */
  lemma SetSucceeds(t: Tree, index: int)
    requires Searchable(t)
    ensures Signed(Find(t, index, Signed).index) == index <==> index in Dict(Leaves(t))
  {
    SearchIsLookup(t, index, Signed);
    DictDomain(Leaves(t), index);
  }

  lemma SetHashedBy(t: Tree, ks: set<int>, k: int, x: Digest, g: Combiner, h: Combiner)
    requires Searchable(t) && HashedBy(t, ks, g, h)
    ensures HashedBy(Update(t, k, x, Signed, g), ks + if k in Dict(Leaves(t)) then {k} else {}, g, h)
  {
    hide HashedBy, Dict, Leaves, Put, Find, Searchable;
    SetSucceeds(t, k);
    PutHashedBy(t, ks, k, x, g, h);
    assert ks + {} == ks;
  }

  /** Over any run, exactly the nodes on the paths of the written indices change to the combination by g. */
  lemma {:induction false} RunKeepsHashedBy(t: Tree, ops: seq<Op>, g: Combiner, h: Combiner)
    requires Searchable(t) && Hashed(t, h)
    ensures HashedBy(TreeRun(t, ops, g).0, Written(Dict(Leaves(t)).Keys, ops), g, h)
  {
    hide HashedBy, Dict, Leaves, Searchable, Hashed, Update, Lookup, MapRun, Ints, Seen, Visible;
    if ops == [] {
      HashedByNone(t, g, h);
    } else {
      RunKeepsHashedBy(t, Init(ops), g, h);
      RunHoldsMap(t, Init(ops), g);
      RunKeepsDomain(Dict(Leaves(t)), Seen(t), Init(ops));
      if Last(ops).Set? {
        var u, ks := TreeRun(t, Init(ops), g).0, Written(Dict(Leaves(t)).Keys, Init(ops));
        SetHashedBy(u, ks, Last(ops).index, Last(ops).hash, g, h);
      }
    }
  }
}
