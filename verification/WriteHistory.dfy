/** The write history kept for verification: a search tree keyed by file and offset from which every new write
    evicts the older writes it overlaps, looking only at the entries it meets on its way down. */
module WriteHistory {

  datatype Piece = Piece(file: nat, offset: nat, len: nat, numberio: nat)

  predicate Before(a: Piece, b: Piece) {
    a.file < b.file || (a.file == b.file && a.offset < b.offset)
  }

  predicate SameKey(a: Piece, b: Piece) {
    a.file == b.file && a.offset == b.offset
  }

  /** The overlap test of the descent. For writes of at least one byte it says that the byte ranges intersect. */
  predicate Overlaps(a: Piece, b: Piece) {
    && a.file == b.file
    && (if a.offset < b.offset then a.offset + a.len > b.offset
        else if a.offset > b.offset then b.offset + b.len > a.offset
        else true)
  }

  lemma OverlapsIsIntersection(a: Piece, b: Piece)
    requires a.len > 0 && b.len > 0
    ensures Overlaps(a, b) <==>
      a.file == b.file && exists x {:trigger InRange(a, x)} :: InRange(a, x) && InRange(b, x)
  {
    if Overlaps(a, b) {
      var x := if a.offset < b.offset then b.offset else a.offset;
      assert InRange(a, x) && InRange(b, x);
    }
  }

  predicate InRange(a: Piece, x: int) {
    a.offset <= x < a.offset + a.len
  }

  /** Sorted by key and pairwise free of overlaps. */
  predicate Tidy(s: seq<Piece>) {
    forall i, j :: 0 <= i < j < |s| ==> Before(s[i], s[j]) && !Overlaps(s[i], s[j])
  }

  datatype Tree = Leaf | Node(left: Tree, piece: Piece, right: Tree)

  function InOrder(t: Tree): seq<Piece> {
    match t
    case Leaf => []
    case Node(l, p, r) => InOrder(l) + [p] + InOrder(r)
  }

  // ---------------------------------------------------------------- linear specification

  /** A linear scan: everything that does not overlap the new write. */
  function Keep(s: seq<Piece>, x: Piece): seq<Piece> {
    if s == [] then [] else (if Overlaps(s[0], x) then [] else [s[0]]) + Keep(s[1..], x)
  }

  function Insert(s: seq<Piece>, x: Piece): seq<Piece> {
    if s == [] || Before(x, s[0]) then [x] + s else [s[0]] + Insert(s[1..], x)
  }

  /** The history after logging `x`. */
  function Logged(s: seq<Piece>, x: Piece): seq<Piece> {
    Insert(Keep(s, x), x)
  }

  lemma {:induction false} KeepMembers(s: seq<Piece>, x: Piece)
    ensures forall e :: e in Keep(s, x) <==> e in s && !Overlaps(e, x)
  {
    if s != [] {
      KeepMembers(s[1..], x);
      assert s == [s[0]] + s[1..];
    }
  }

  lemma {:induction false} KeepTidy(s: seq<Piece>, x: Piece)
    requires Tidy(s)
    ensures Tidy(Keep(s, x))
  {
    if s != [] {
      KeepTidy(s[1..], x);
      KeepMembers(s[1..], x);
      var rest := Keep(s[1..], x);
      forall j | 0 <= j < |rest| ensures Before(s[0], rest[j]) && !Overlaps(s[0], rest[j]) {
        assert rest[j] in s[1..];
      }
    }
  }

  lemma {:induction false} InsertMembers(s: seq<Piece>, x: Piece)
    ensures forall e :: e in Insert(s, x) <==> e in s || e == x
    ensures |Insert(s, x)| == |s| + 1
  {
    if s != [] && !Before(x, s[0]) {
      InsertMembers(s[1..], x);
      assert s == [s[0]] + s[1..];
    }
  }

  lemma {:induction false} InsertTidy(s: seq<Piece>, x: Piece)
    requires Tidy(s) && forall e :: e in s ==> !Overlaps(e, x)
    ensures Tidy(Insert(s, x))
  {
    if s == [] {
    } else if Before(x, s[0]) {
      forall j | 0 <= j < |s| ensures Before(x, s[j]) && !Overlaps(x, s[j]) {
        assert s[j] in s;
      }
    } else {
      assert s[0] in s;
      InsertTidy(s[1..], x);
      InsertMembers(s[1..], x);
      var rest := Insert(s[1..], x);
      forall j | 0 <= j < |rest| ensures Before(s[0], rest[j]) && !Overlaps(s[0], rest[j]) {
        assert rest[j] in rest;
      }
    }
  }

  /** Logging keeps the history sorted and free of overlaps, and holds the new write and the old ones it misses. */
  lemma LoggedOk(s: seq<Piece>, x: Piece)
    requires Tidy(s)
    ensures Tidy(Logged(s, x))
    ensures forall e :: e in Logged(s, x) <==> e == x || (e in s && !Overlaps(e, x))
  {
    KeepTidy(s, x);
    KeepMembers(s, x);
    InsertTidy(Keep(s, x), x);
    InsertMembers(Keep(s, x), x);
  }

  // ---------------------------------------------------------------- the descent

  /** The way down from the root meets an entry that overlaps `x`. */
  predicate Meets(t: Tree, x: Piece) {
    match t
    case Leaf => false
    case Node(l, p, r) => Overlaps(p, x) || (if Before(x, p) then Meets(l, x) else Meets(r, x))
  }

  lemma TidyParts(a: seq<Piece>, p: Piece, b: seq<Piece>)
    requires Tidy(a + [p] + b)
    ensures Tidy(a) && Tidy(b)
    ensures forall e :: e in a ==> Before(e, p) && !Overlaps(e, p)
    ensures forall e :: e in b ==> Before(p, e) && !Overlaps(p, e)
  {
    var s := a + [p] + b;
    assert s[|a|] == p;
    assert forall i :: 0 <= i < |a| ==> s[i] == a[i];
    assert forall i :: 0 <= i < |b| ==> s[|a| + 1 + i] == b[i];
  }

  /** Nothing on the far side of an entry that misses `x` can overlap `x`. */
  lemma FarSide(a: seq<Piece>, p: Piece, b: seq<Piece>, x: Piece)
    requires Tidy(a + [p] + b) && !Overlaps(p, x)
    ensures Before(x, p) ==> forall e :: e in b ==> !Overlaps(e, x)
    ensures !Before(x, p) ==> Before(p, x) && forall e :: e in a ==> !Overlaps(e, x)
  {
    TidyParts(a, p, b);
  }

  /** The descent meets an overlapping entry if and only if a linear scan finds one. */
  lemma {:induction false} DescentIsScan(t: Tree, x: Piece)
    requires Tidy(InOrder(t))
    ensures Meets(t, x) <==> exists e :: e in InOrder(t) && Overlaps(e, x)
  {
    if t.Node? {
      var a, p, b := InOrder(t.left), t.piece, InOrder(t.right);
      TidyParts(a, p, b);
      DescentIsScan(t.left, x);
      DescentIsScan(t.right, x);
      assert p in InOrder(t);
      assert forall e :: e in InOrder(t) <==> e in a || e == p || e in b;
      if !Overlaps(p, x) {
        FarSide(a, p, b, x);
      }
    }
  }

  // ---------------------------------------------------------------- any run of writes

  function History(writes: seq<Piece>): seq<Piece> {
    if writes == [] then [] else
    var last := |writes| - 1;
    Logged(History(writes[..last]), writes[last])
  }

  /** Write `i` is not overlapped by a later one. */
  predicate Survives(writes: seq<Piece>, i: nat) {
    i < |writes| && forall j :: i < j < |writes| ==> !Overlaps(writes[i], writes[j])
  }

  ghost predicate IsSurvivor(writes: seq<Piece>, e: Piece) {
    exists i: nat :: Survives(writes, i) && writes[i] == e
  }

  lemma SurvivorsStep(init: seq<Piece>, x: Piece, e: Piece)
    ensures IsSurvivor(init + [x], e) <==> e == x || (IsSurvivor(init, e) && !Overlaps(e, x))
  {
    var writes := init + [x];
    assert Survives(writes, |init|);
    assert forall j :: 0 <= j < |init| ==> writes[j] == init[j];
    if IsSurvivor(writes, e) && e != x {
      var i: nat :| Survives(writes, i) && writes[i] == e;
      assert !Overlaps(writes[i], writes[|init|]);
      forall j | i < j < |init| ensures !Overlaps(init[i], init[j]) { assert writes[j] == init[j]; }
    }
    if IsSurvivor(init, e) && !Overlaps(e, x) {
      var i: nat :| Survives(init, i) && init[i] == e;
      assert Survives(writes, i);
    }
  }

  /** After any run of writes the history is sorted, pairwise disjoint, and exactly the writes that no later one
      overlaps. */
  lemma {:induction false} HistoryIsSurvivors(writes: seq<Piece>)
    ensures Tidy(History(writes))
    ensures forall e :: e in History(writes) <==> IsSurvivor(writes, e)
  {
    if writes != [] {
      var last := |writes| - 1;
      var init, x := writes[..last], writes[last];
      HistoryIsSurvivors(init);
      LoggedOk(History(init), x);
      assert writes == init + [x];
      hide IsSurvivor;
      forall e ensures e in History(writes) <==> IsSurvivor(writes, e) {
        SurvivorsStep(init, x, e);
      }
    }
  }

  // ---------------------------------------------------------------- the tree in place

  /** rb_erase: any tree with the same order and one entry less. Callers see the contract only, so they do not depend
      on the shape or on rebalancing; the body is the plain unbalanced deletion. */
  method Erase(t: Tree, ghost before: seq<Piece>, p: Piece, ghost after: seq<Piece>) returns (t': Tree)
    requires InOrder(t) == before + [p] + after && Tidy(InOrder(t))
    ensures InOrder(t') == before + after
  {
    var l, r := InOrder(t.left), InOrder(t.right);
    TidyParts(before, p, after);
    TidyParts(l, t.piece, r);
    if SameKey(p, t.piece) {
      SplitsAlike(l, t.piece, r, before, p, after);
      t' := Join(t.left, t.right);
    } else if Before(p, t.piece) {
      SplitsLeft(l, t.piece, r, before, p, after);
      var left := Erase(t.left, before, p, l[|before| + 1..]);
      t' := Node(left, t.piece, t.right);
      assert before + l[|before| + 1..] + [t.piece] + r == before + after;
    } else {
      SplitsRight(l, t.piece, r, before, p, after);
      var right := Erase(t.right, before[|l| + 1..], p, after);
      t' := Node(t.left, t.piece, right);
      assert l + [t.piece] + (before[|l| + 1..] + after) == before + after;
    }
  }

  method Join(l: Tree, r: Tree) returns (t: Tree)
    ensures InOrder(t) == InOrder(l) + InOrder(r)
  {
    if l.Leaf? {
      t := r;
    } else {
      var right := Join(l.right, r);
      t := Node(l.left, l.piece, right);
    }
  }

  /** Where `p` sits in a sorted sequence decides on which side of another entry it is. */
  lemma SplitsAlike(l: seq<Piece>, q: Piece, r: seq<Piece>, before: seq<Piece>, p: Piece, after: seq<Piece>)
    requires l + [q] + r == before + [p] + after && Tidy(l + [q] + r) && SameKey(p, q)
    ensures l == before && r == after
  {
    var s := l + [q] + r;
    assert s[|l|] == q && s[|before|] == p;
    assert |l| == |before|;
    assert l == s[..|l|] == before;
    assert r == s[|l| + 1..] == after;
  }

  lemma SplitsLeft(l: seq<Piece>, q: Piece, r: seq<Piece>, before: seq<Piece>, p: Piece, after: seq<Piece>)
    requires l + [q] + r == before + [p] + after && Tidy(l + [q] + r) && Before(p, q)
    ensures |before| < |l| && l == before + [p] + l[|before| + 1..] && after == l[|before| + 1..] + [q] + r
  {
    var s := l + [q] + r;
    assert s[|l|] == q && s[|before|] == p;
    assert |before| < |l|;
    assert l == s[..|l|] == before + [p] + l[|before| + 1..];
    assert after == s[|before| + 1..] == l[|before| + 1..] + [q] + r;
  }

  lemma SplitsRight(l: seq<Piece>, q: Piece, r: seq<Piece>, before: seq<Piece>, p: Piece, after: seq<Piece>)
    requires l + [q] + r == before + [p] + after && Tidy(l + [q] + r) && Before(q, p)
    ensures |l| < |before| && before == l + [q] + before[|l| + 1..] && r == before[|l| + 1..] + [p] + after
  {
    var s := l + [q] + r;
    assert s[|l|] == q && s[|before|] == p;
    assert |l| < |before|;
    assert before == s[..|before|] == l + [q] + before[|l| + 1..];
    assert r == s[|l| + 1..] == before[|l| + 1..] + [p] + after;
  }

  lemma SideOf(l: seq<Piece>, p: Piece, r: seq<Piece>, before: seq<Piece>, x: Piece, after: seq<Piece>)
    requires l + [p] + r == before + after
    requires forall e :: e in before ==> Before(e, x)
    requires forall e :: e in after ==> Before(x, e)
    ensures if Before(x, p) then |before| <= |l| else |l| < |before|
  {
    var s := l + [p] + r;
    assert s[|l|] == p;
    if |l| < |before| {
      assert before[|l|] == p && p in before;
    } else {
      assert after[|l| - |before|] == p && p in after;
    }
  }

  /** rb_link_node and rb_insert_color: any tree with the same order and the new entry at the place found. */
  method Link(t: Tree, ghost before: seq<Piece>, x: Piece, ghost after: seq<Piece>) returns (t': Tree)
    requires InOrder(t) == before + after
    requires forall e :: e in before ==> Before(e, x)
    requires forall e :: e in after ==> Before(x, e)
    ensures InOrder(t') == before + [x] + after
  {
    if t.Leaf? {
      t' := Node(Leaf, x, Leaf);
    } else {
      var l, p, r := InOrder(t.left), t.piece, InOrder(t.right);
      var s := l + [p] + r;
      SideOf(l, p, r, before, x, after);
      if Before(x, p) {
        assert l == s[..|l|] == before + l[|before|..];
        assert after == s[|before|..] == l[|before|..] + [p] + r;
        var left := Link(t.left, before, x, l[|before|..]);
        t' := Node(left, p, t.right);
      } else {
        assert before == s[..|before|] == l + [p] + before[|l| + 1..];
        assert r == s[|l| + 1..] == before[|l| + 1..] + after;
        var right := Link(t.right, before[|l| + 1..], x, after);
        t' := Node(t.left, p, right);
      }
    }
  }

  lemma {:induction false} KeepAll(s: seq<Piece>, x: Piece)
    requires forall e :: e in s ==> !Overlaps(e, x)
    ensures Keep(s, x) == s
  {
    if s != [] {
      assert s[0] in s;
      KeepAll(s[1..], x);
    }
  }

  lemma {:induction false} KeepWithout(before: seq<Piece>, p: Piece, after: seq<Piece>, x: Piece)
    requires Overlaps(p, x)
    ensures Keep(before + [p] + after, x) == Keep(before + after, x)
  {
    var s := before + [p] + after;
    if before == [] {
      assert s[1..] == after && before + after == after;
    } else {
      assert s[1..] == before[1..] + [p] + after && (before + after)[1..] == before[1..] + after;
      KeepWithout(before[1..], p, after, x);
    }
  }

  lemma {:induction false} InsertBetween(before: seq<Piece>, after: seq<Piece>, x: Piece)
    requires forall e :: e in before ==> Before(e, x)
    requires forall e :: e in after ==> Before(x, e)
    ensures Insert(before + after, x) == before + [x] + after
  {
    if before == [] {
      assert before + after == after;
      if after != [] {
        assert after[0] in after;
      }
    } else {
      assert before[0] in before;
      assert (before + after)[1..] == before[1..] + after;
      InsertBetween(before[1..], after, x);
    }
  }

  /** The history fields of thread_data: the tree, the plain list for sequential writes, and their length. */
  class Log {
    var tree: Tree
    var list: seq<Piece>
    var histLen: nat

    ghost predicate Valid()
      reads this
    {
      Tidy(InOrder(tree)) && histLen == |InOrder(tree)| + |list|
    }

    constructor ()
      ensures Valid() && InOrder(tree) == [] && list == []
    {
      tree, list, histLen := Leaf, [], 0;
    }

    /** log_io_piece. `unsorted` is the test that picks the plain list. */
    method LogPiece(x: Piece, unsorted: bool)
      requires Valid()
      modifies this
      ensures Valid()
      ensures unsorted ==> list == old(list) + [x] && tree == old(tree)
      ensures !unsorted ==> list == old(list) && InOrder(tree) == Logged(old(InOrder(tree)), x)
    {
      if unsorted {
        list := list + [x];
        histLen := histLen + 1;
        return;
      }
      var linked := false;
      while !linked
        invariant Tidy(InOrder(tree)) && list == old(list)
        invariant histLen == |InOrder(tree)| + |list|
        invariant !linked ==> Logged(InOrder(tree), x) == Logged(old(InOrder(tree)), x)
        invariant linked ==> InOrder(tree) == Logged(old(InOrder(tree)), x)
        decreases !linked, |InOrder(tree)|
      {
        linked := DescendOnce(x);
      }
    }

    /** One pass from `restart`: the first overlapping entry on the way down is erased, or the new one linked. */
    method DescendOnce(x: Piece) returns (linked: bool)
      requires Valid()
      modifies this
      ensures Valid() && list == old(list)
      ensures linked <==> !Meets(old(tree), x)
      ensures linked ==> InOrder(tree) == Logged(old(InOrder(tree)), x)
      ensures !linked ==> |InOrder(tree)| < |old(InOrder(tree))|
      ensures !linked ==> Logged(InOrder(tree), x) == Logged(old(InOrder(tree)), x)
    {
      var overlap, p, before, after := Descend(tree, x);
      if overlap {
        histLen := histLen - 1;
        ErasedTidy(before, p, after);
        KeepWithout(before, p, after, x);
        tree := Erase(tree, before, p, after);
        return false;
      }
      KeepAll(before + after, x);
      InsertBetween(before, after, x);
      LoggedOk(before + after, x);
      tree := Link(tree, before, x, after);
      histLen := histLen + 1;
      linked := true;
    }

    /** unlog_io_piece for an entry that is still on the tree. */
    method UnlogSorted(p: Piece)
      requires Valid() && p in InOrder(tree)
      modifies this
      ensures Valid() && list == old(list)
      ensures forall e :: e in InOrder(tree) <==> e in old(InOrder(tree)) && e != p
    {
      ghost var s := InOrder(tree);
      ghost var i :| 0 <= i < |s| && s[i] == p;
      ghost var before, after := s[..i], s[i + 1..];
      assert s == before + [p] + after;
      ErasedTidy(before, p, after);
      TidyParts(before, p, after);
      tree := Erase(tree, before, p, after);
      histLen := histLen - 1;
    }

    /** unlog_io_piece for the entry at position `i` of the plain list. */
    method UnlogListed(i: nat)
      requires Valid() && i < |list|
      modifies this
      ensures Valid() && tree == old(tree) && list == old(list[..i] + list[i + 1..])
    {
      list := list[..i] + list[i + 1..];
      histLen := histLen - 1;
    }

    /** trim_io_piece for an entry on the plain list. */
    method TrimListed(i: nat, len: nat)
      requires Valid() && i < |list|
      modifies this
      ensures Valid() && tree == old(tree) && list == old(list)[i := old(list)[i].(len := len)]
    {
      list := list[i := list[i].(len := len)];
    }

    /** trim_io_piece for an entry on the tree: a short transfer shrinks its logged length in place. */
    method Trim(p: Piece, len: nat)
      requires Valid() && len <= p.len
      modifies this
      ensures Valid() && list == old(list)
      ensures p !in old(InOrder(tree)) ==> InOrder(tree) == old(InOrder(tree))
      ensures forall i :: 0 <= i < |old(InOrder(tree))| && old(InOrder(tree))[i] == p ==>
                InOrder(tree) == old(InOrder(tree))[i := p.(len := len)]
    {
      ShrinkOk(tree, p, len);
      ShrunkOne(InOrder(tree), p, len);
      ShrunkTidy(InOrder(tree), p, len);
      tree := Shrink(tree, p, len);
    }

    /** prune_io_piece_log. */
    method Prune()
      requires Valid()
      modifies this
      ensures Valid() && tree == Leaf && list == [] && histLen == 0
    {
      while tree.Node?
        invariant Valid() && list == old(list)
        decreases |InOrder(tree)|
      {
        var first := tree;
        while first.left.Node?
          invariant first.Node? && InOrder(first) != [] && InOrder(first)[0] == InOrder(tree)[0]
          decreases first
        {
          assert InOrder(first)[0] == InOrder(first.left)[0];
          first := first.left;
        }
        ghost var s := InOrder(tree);
        assert s == [] + [first.piece] + s[1..];
        ErasedTidy([], first.piece, s[1..]);
        tree := Erase(tree, [], first.piece, s[1..]);
        histLen := histLen - 1;
      }
      while list != []
        invariant Valid() && tree == Leaf
        decreases |list|
      {
        list := list[1..];
        histLen := histLen - 1;
      }
    }
  }

  /** Logging any sequence of writes into a new history: the tree holds exactly the writes no later one overlaps. */
  method LogAll(writes: seq<Piece>) returns (log: Log)
    ensures log.Valid() && fresh(log) && log.list == []
    ensures InOrder(log.tree) == History(writes)
    ensures forall e :: e in InOrder(log.tree) <==> IsSurvivor(writes, e)
  {
    hide Logged, IsSurvivor, Tidy;
    log := new Log();
    for i := 0 to |writes|
      invariant log.Valid() && log.list == [] && InOrder(log.tree) == History(writes[..i])
    {
      log.LogPiece(writes[i], false);
      assert writes[..i + 1][..i] == writes[..i];
    }
    assert writes[..|writes|] == writes;
    HistoryIsSurvivors(writes);
  }

  function Shrink(t: Tree, p: Piece, len: nat): Tree {
    match t
    case Leaf => Leaf
    case Node(l, q, r) => Node(Shrink(l, p, len), if q == p then p.(len := len) else q, Shrink(r, p, len))
  }

  function Shrunk(s: seq<Piece>, p: Piece, len: nat): seq<Piece> {
    seq(|s|, i requires 0 <= i < |s| => if s[i] == p then p.(len := len) else s[i])
  }

  lemma {:induction false} ShrinkOk(t: Tree, p: Piece, len: nat)
    ensures InOrder(Shrink(t, p, len)) == Shrunk(InOrder(t), p, len)
  {
    if t.Node? {
      ShrinkOk(t.left, p, len);
      ShrinkOk(t.right, p, len);
    }
  }

  /** Only the one entry changes, and only its length. */
  lemma ShrunkOne(s: seq<Piece>, p: Piece, len: nat)
    requires Tidy(s)
    ensures p !in s ==> Shrunk(s, p, len) == s
    ensures forall i :: 0 <= i < |s| && s[i] == p ==> Shrunk(s, p, len) == s[i := p.(len := len)]
  {
    forall i | 0 <= i < |s| && s[i] == p ensures Shrunk(s, p, len) == s[i := p.(len := len)] {
      forall j | 0 <= j < |s| && j != i ensures s[j] != p {
        assert if i < j then Before(s[i], s[j]) else Before(s[j], s[i]);
      }
    }
  }

  /** Shrinking an entry keeps the history sorted and free of overlaps. */
  lemma ShrunkTidy(s: seq<Piece>, p: Piece, len: nat)
    requires Tidy(s) && len <= p.len
    ensures Tidy(Shrunk(s, p, len))
  {
  }

  /** The loop from the root. It stops at the first entry that overlaps `x`, or at the place where `x` belongs. */
  method Descend(t: Tree, x: Piece) returns (overlap: bool, p: Piece, ghost before: seq<Piece>, ghost after: seq<Piece>)
    requires Tidy(InOrder(t))
    ensures overlap <==> Meets(t, x)
    ensures overlap ==> Overlaps(p, x) && InOrder(t) == before + [p] + after
    ensures !overlap ==> InOrder(t) == before + after
    ensures !overlap ==> forall e :: e in before ==> Before(e, x) && !Overlaps(e, x)
    ensures !overlap ==> forall e :: e in after ==> Before(x, e) && !Overlaps(e, x)
  {
    var cur := t;
    before, after := [], [];
    p, overlap := x, false;
    while cur.Node?
      invariant InOrder(t) == before + InOrder(cur) + after
      invariant Tidy(InOrder(cur)) && Meets(t, x) == Meets(cur, x) && !overlap
      invariant forall e :: e in before ==> Before(e, x) && !Overlaps(e, x)
      invariant forall e :: e in after ==> Before(x, e) && !Overlaps(e, x)
      decreases cur
    {
      p := cur.piece;
      ghost var a, b := InOrder(cur.left), InOrder(cur.right);
      TidyParts(a, p, b);
      Regroup(before, a, p, b, after);
      if x.file < p.file {
        cur := cur.left;
      } else if x.file > p.file {
        cur := cur.right;
      } else if x.offset < p.offset {
        cur := cur.left;
        overlap := x.offset + x.len > p.offset;
      } else if x.offset > p.offset {
        cur := cur.right;
        overlap := p.offset + p.len > x.offset;
      } else {
        overlap := true;
      }
      if overlap {
        before, after := before + a, b + after;
        return;
      }
      FarSide(a, p, b, x);
      if Before(x, p) {
        after := [p] + b + after;
      } else {
        before := before + a + [p];
      }
    }
  }

  lemma Regroup(before: seq<Piece>, a: seq<Piece>, p: Piece, b: seq<Piece>, after: seq<Piece>)
    ensures before + (a + [p] + b) + after == before + a + [p] + (b + after)
    ensures before + (a + [p] + b) + after == before + a + ([p] + b + after)
    ensures before + (a + [p] + b) + after == before + a + [p] + b + after
  {
  }

  lemma ErasedTidy(a: seq<Piece>, p: Piece, b: seq<Piece>)
    requires Tidy(a + [p] + b)
    ensures Tidy(a + b)
  {
    var s := a + [p] + b;
    forall i, j | 0 <= i < j < |a + b| ensures Before((a + b)[i], (a + b)[j]) && !Overlaps((a + b)[i], (a + b)[j]) {
      var i', j' := if i < |a| then i else i + 1, if j < |a| then j else j + 1;
      assert s[i'] == (a + b)[i] && s[j'] == (a + b)[j];
    }
  }
}
