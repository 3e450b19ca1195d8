/** What a multi-trie stands for: a map from prefixes to the non-empty sets of values added there.  The
    operations of generic_mtrie_t (src/generic_mtrie_impl.hpp in libzmq) on that map, what one level of the
    trie says about it, and what it holds after any run of operations. */
module MtrieMap {
  import opened Bytes

  datatype RmResult = NotFound | LastValueRemoved | ValuesRemain

  type Entries<V> = map<bytes, set<V>>

  /** The values held at a prefix. */
  function At<V>(m: Entries<V>, p: bytes): set<V> { if p in m then m[p] else {} }

  /** A set of values to keep at a prefix, if there is any. */
  function Kept<V>(m: Entries<V>, p: bytes, s: set<V>): Entries<V> { if s == {} then m - {p} else m[p := s] }

  function Added<V>(m: Entries<V>, p: bytes, v: V): Entries<V> { m[p := At(m, p) + {v}] }

  function Removed<V(==)>(m: Entries<V>, p: bytes, v: V): Entries<V>
  {
    if v in At(m, p) then Kept(m, p, m[p] - {v}) else m
  }

  function Outcome<V(==)>(m: Entries<V>, p: bytes, v: V): RmResult
  {
    if v !in At(m, p) then NotFound else if m[p] == {v} then LastValueRemoved else ValuesRemain
  }

  /** The entries after v is removed from every prefix. */
  function Cleared<V(==)>(m: Entries<V>, v: V): Entries<V>
  {
    map p | p in m && m[p] != {v} :: m[p] - {v}
  }

  // ----- Runs -----

  datatype Op<V> = Add(p: bytes, v: V) | Rm(p: bytes, v: V) | RmAll(v: V)

  function Do<V(==)>(m: Entries<V>, op: Op<V>): Entries<V>
  {
    match op
    case Add(p, v) => Added(m, p, v)
    case Rm(p, v) => Removed(m, p, v)
    case RmAll(v) => Cleared(m, v)
  }

  lemma DoIs<V>(m: Entries<V>, op: Op<V>)
    ensures op.Add? ==> Do(m, op) == Added(m, op.p, op.v)
    ensures op.Rm? ==> Do(m, op) == Removed(m, op.p, op.v)
    ensures op.RmAll? ==> Do(m, op) == Cleared(m, op.v)
  {
  }

  function Run<V(==)>(m: Entries<V>, ops: seq<Op<V>>): Entries<V>
  {
    if ops == [] then m else Do(Run(m, ops[..|ops| - 1]), ops[|ops| - 1])
  }

  predicate Takes<V(==)>(op: Op<V>, p: bytes, v: V)
  {
    op == Rm(p, v) || op == RmAll(v)
  }

  /** The pair was added, and not removed since. */
  ghost predicate AddedLast<V>(ops: seq<Op<V>>, p: bytes, v: V)
  {
    exists i :: 0 <= i < |ops| && ops[i] == Add(p, v) && forall j :: i < j < |ops| ==> !Takes(ops[j], p, v)
  }

  lemma OthersLeft<V>(s: set<V>, v: V)
    ensures s - {v} == {} <==> s == {} || s == {v}
  {
    if s - {v} == {} && s != {} {
      forall x | x in s ensures x == v { assert x !in s - {v}; }
      assert s == {v};
    }
  }

  /** A value that was not there is not found; one that was is the last if nothing is left at its prefix. */
  ghost predicate Tells<V>(r: RmResult, was: Entries<V>, now: Entries<V>, p: bytes, v: V)
  {
    && (r == NotFound <==> v !in At(was, p))
    && (r == LastValueRemoved <==> v in At(was, p) && At(now, p) == {})
    && (r == ValuesRemain <==> v in At(was, p) && At(now, p) != {})
  }

  lemma OutcomeTells<V>(m: Entries<V>, p: bytes, v: V)
    ensures Tells(Outcome(m, p, v), m, Removed(m, p, v), p, v)
  {
    OthersLeft(At(m, p), v);
  }

  lemma DoAt<V>(m: Entries<V>, op: Op<V>, p: bytes, v: V)
    requires forall q :: q in m ==> m[q] != {}
    ensures v in At(Do(m, op), p) <==> op == Add(p, v) || (v in At(m, p) && !Takes(op, p, v))
    ensures forall q :: q in Do(m, op) ==> Do(m, op)[q] != {}
  {
    match op
    case Add(q, w) =>
    case Rm(q, w) =>
    case RmAll(w) =>
      forall q | q in Cleared(m, w) ensures Cleared(m, w)[q] != {} {
        OthersLeft(m[q], w);
      }
      if p in m && m[p] == {w} {
        assert v in At(m, p) ==> v == w;
      }
  }

  /** From an empty trie, the pairs held after a run are those added and not removed since. */
  lemma {:induction false} RunHolds<V>(ops: seq<Op<V>>, p: bytes, v: V)
    ensures v in At(Run(map[], ops), p) <==> AddedLast(ops, p, v)
    ensures forall q :: q in Run<V>(map[], ops) ==> Run(map[], ops)[q] != {}
  {
    if ops != [] {
      var n := |ops| - 1;
      var before := ops[..n];
      RunHolds(before, p, v);
      DoAt(Run(map[], before), ops[n], p, v);
      if AddedLast(before, p, v) && !Takes(ops[n], p, v) {
        var i :| 0 <= i < n && before[i] == Add(p, v) && forall j :: i < j < n ==> !Takes(before[j], p, v);
        assert ops[i] == Add(p, v) && forall j :: i < j < |ops| ==> !Takes(ops[j], p, v) by {
          forall j | i < j < |ops| ensures !Takes(ops[j], p, v) {
            if j < n { assert !Takes(before[j], p, v); }
          }
        }
      }
      if AddedLast(ops, p, v) {
        var i :| 0 <= i < |ops| && ops[i] == Add(p, v) && forall j :: i < j < |ops| ==> !Takes(ops[j], p, v);
        if i < n {
          assert before[i] == Add(p, v) && forall j :: i < j < n ==> !Takes(before[j], p, v);
        }
      }
    }
  }

  // ----- One level of a trie -----

  type Below<V> = map<byte, Entries<V>>

  /** A node with these values, and children that stand for these maps, none of them empty. */
  ghost predicate Denotes<V>(entries: Entries<V>, pipes: Option<set<V>>, kids: Below<V>)
  {
    && ([] in entries <==> pipes.Some?)
    && (pipes.Some? ==> entries[[]] == pipes.value && pipes.value != {})
    && (forall p :: p != [] ==> (p in entries <==> p[0] in kids && p[1..] in kids[p[0]]))
    && (forall p :: p != [] && p in entries ==> entries[p] == kids[p[0]][p[1..]])
  }

  ghost predicate NoneEmpty<V>(kids: Below<V>)
  {
    forall c :: c in kids ==> kids[c] != map[]
  }

  /** The map of a child, empty if there is none. */
  ghost function Under<V>(kids: Below<V>, c: byte): Entries<V>
  {
    if c in kids then kids[c] else map[]
  }

  /** The children when the one of c stands for another map, and is dropped if that is empty. */
  ghost function With<V>(kids: Below<V>, c: byte, m: Entries<V>): Below<V>
  {
    if m == map[] then kids - {c} else kids[c := m]
  }

  lemma SplitPath(p: bytes, c: byte, q: bytes)
    requires p != []
    ensures p == [c] + q <==> p[0] == c && p[1..] == q
  {
    assert p == [p[0]] + p[1..];
  }

  lemma DenotesAt<V>(entries: Entries<V>, pipes: Option<set<V>>, kids: Below<V>, p: bytes)
    requires Denotes(entries, pipes, kids) && p != []
    ensures At(entries, p) == At(Under(kids, p[0]), p[1..])
    ensures p in entries <==> p[1..] in Under(kids, p[0])
  {
  }

  lemma DenotesSome<V>(entries: Entries<V>, pipes: Option<set<V>>, kids: Below<V>)
    requires Denotes(entries, pipes, kids)
    ensures pipes.Some? ==> pipes.value != {}
  {
  }

  /** An entry below a child changes with the entry of the node. */
  lemma DenotesKept<V>(entries: Entries<V>, pipes: Option<set<V>>, kids: Below<V>, prefix: bytes, s: set<V>)
    requires Denotes(entries, pipes, kids) && prefix != []
    ensures Denotes(Kept(entries, prefix, s), pipes,
                    With(kids, prefix[0], Kept(Under(kids, prefix[0]), prefix[1..], s)))
  {
    var c, q := prefix[0], prefix[1..];
    var m := Kept(Under(kids, c), q, s);
    var e := Kept(entries, prefix, s);
    forall p | p != [] && p[0] == c
      ensures p in e <==> p[1..] in m
      ensures p in e ==> e[p] == m[p[1..]]
    {
      SplitPath(p, c, q);
      SplitPath(prefix, c, q);
    }
  }

  lemma AddDenotes<V>(entries: Entries<V>, pipes: Option<set<V>>, kids: Below<V>, prefix: bytes, v: V)
    requires Denotes(entries, pipes, kids) && NoneEmpty(kids) && prefix != []
    ensures Denotes(Added(entries, prefix, v), pipes,
                    kids[prefix[0] := Added(Under(kids, prefix[0]), prefix[1..], v)])
    ensures NoneEmpty(kids[prefix[0] := Added(Under(kids, prefix[0]), prefix[1..], v)])
    ensures prefix in entries <==> prefix[1..] in Under(kids, prefix[0])
  {
    hide Denotes;
    DenotesAt(entries, pipes, kids, prefix);
    DenotesKept(entries, pipes, kids, prefix, At(entries, prefix) + {v});
    assert prefix[1..] in Added(Under(kids, prefix[0]), prefix[1..], v);
  }

  lemma RemoveDenotes<V>(entries: Entries<V>, pipes: Option<set<V>>, kids: Below<V>, prefix: bytes, v: V)
    requires Denotes(entries, pipes, kids) && NoneEmpty(kids) && prefix != []
    ensures Denotes(Removed(entries, prefix, v), pipes,
                    With(kids, prefix[0], Removed(Under(kids, prefix[0]), prefix[1..], v)))
    ensures NoneEmpty(With(kids, prefix[0], Removed(Under(kids, prefix[0]), prefix[1..], v)))
    ensures Outcome(entries, prefix, v) == Outcome(Under(kids, prefix[0]), prefix[1..], v)
  {
    hide Denotes;
    DenotesAt(entries, pipes, kids, prefix);
    if v in At(entries, prefix) {
      DenotesKept(entries, pipes, kids, prefix, At(entries, prefix) - {v});
    } else {
      assert With(kids, prefix[0], Under(kids, prefix[0])) == kids;
    }
  }

  lemma NothingThere<V>(entries: Entries<V>, pipes: Option<set<V>>, kids: Below<V>, prefix: bytes, v: V)
    requires Denotes(entries, pipes, kids) && prefix != [] && prefix[0] !in kids
    ensures Removed(entries, prefix, v) == entries && Outcome(entries, prefix, v) == NotFound
  {
    hide Denotes;
    DenotesAt(entries, pipes, kids, prefix);
  }

  lemma WithTwice<V>(kids: Below<V>, c: byte, m: Entries<V>)
    ensures With(kids[c := m], c, m) == With(kids, c, m)
  {
  }

  /** The entries are empty iff the node holds nothing: what is_redundant goes by. */
  lemma EmptyDenotes<V>(entries: Entries<V>, pipes: Option<set<V>>, kids: Below<V>)
    requires Denotes(entries, pipes, kids) && NoneEmpty(kids)
    ensures entries == map[] <==> pipes.None? && kids == map[]
  {
    if pipes.None? && kids != map[] {
      var c :| c in kids;
      var q :| q in kids[c];
      SplitPath([c] + q, c, q);
      assert [c] + q in entries;
    }
    if pipes.None? && kids == map[] {
      assert forall p :: p !in entries;
    }
  }

  // ----- Removal from every prefix -----

  function ClearedValues<V(==)>(pipes: Option<set<V>>, v: V): Option<set<V>>
  {
    if pipes.Some? && pipes.value != {v} then Some(pipes.value - {v}) else None
  }

  /** The children when v has been removed from those below n, and the empty ones are dropped. */
  ghost function ClearedBelow<V>(kids: Below<V>, v: V, n: int): Below<V>
  {
    map c | c in kids && (c < n ==> Cleared(kids[c], v) != map[]) :: if c < n then Cleared(kids[c], v) else kids[c]
  }

  lemma ClearedNone<V>(v: V)
    ensures Cleared(map[], v) == map[]
  {
  }

  lemma ClearedStepAt<V>(kids: Below<V>, v: V, c: byte, d: byte)
    ensures d in ClearedBelow(kids, v, c + 1) <==>
            d in With(ClearedBelow(kids, v, c as int), c, Cleared(Under(kids, c), v))
    ensures Under(ClearedBelow(kids, v, c + 1), d) ==
            Under(With(ClearedBelow(kids, v, c as int), c, Cleared(Under(kids, c), v)), d)
  {
    hide Cleared;
    ClearedNone<V>(v);
  }

  lemma ClearedStep<V>(kids: Below<V>, v: V, c: byte)
    ensures ClearedBelow(kids, v, c + 1) == With(ClearedBelow(kids, v, c as int), c, Cleared(Under(kids, c), v))
  {
    hide Cleared, ClearedBelow, With;
    var a, b := ClearedBelow(kids, v, c + 1), With(ClearedBelow(kids, v, c as int), c, Cleared(Under(kids, c), v));
    forall d: byte ensures (d in a <==> d in b) && Under(a, d) == Under(b, d) {
      ClearedStepAt(kids, v, c, d);
    }
    assert forall d :: d in a ==> a[d] == Under(a, d) && b[d] == Under(b, d);
  }

  lemma ClearedNext<V>(kids: Below<V>, v: V, c: byte)
    ensures Under(ClearedBelow(kids, v, c as int), c) == Under(kids, c)
    ensures c in ClearedBelow(kids, v, c as int) <==> c in kids
  {
  }

  lemma ClearedSkip<V>(kids: Below<V>, v: V, a: int, b: int)
    requires a <= b && forall c: byte :: a <= c < b ==> c !in kids
    ensures ClearedBelow(kids, v, a) == ClearedBelow(kids, v, b)
  {
    hide Cleared;
  }

  lemma ClearedNothing<V>(kids: Below<V>, v: V)
    ensures ClearedBelow(kids, v, 0) == kids
  {
    hide Cleared;
  }

  lemma ClearDenotes<V>(entries: Entries<V>, pipes: Option<set<V>>, kids: Below<V>, v: V)
    requires Denotes(entries, pipes, kids)
    ensures Denotes(Cleared(entries, v), ClearedValues(pipes, v), ClearedBelow(kids, v, 256))
    ensures NoneEmpty(ClearedBelow(kids, v, 256))
  {
    var e := Cleared(entries, v);
    var k := ClearedBelow(kids, v, 256);
    forall p | p != [] ensures p in e <==> p[0] in k && p[1..] in k[p[0]] {
      if p in e {
        assert p[1..] in Cleared(kids[p[0]], v);
      }
    }
    if pipes.Some? {
      OthersLeft(pipes.value, v);
    }
  }

  // ----- The prefixes that a removal reports -----

  /** a comes before b in the lexicographic order of unsigned bytes. */
  predicate Less(a: bytes, b: bytes)
  {
    b != [] && (a == [] || a[0] < b[0] || (a[0] == b[0] && Less(a[1..], b[1..])))
  }

  predicate Ascending(told: seq<bytes>)
  {
    forall i, j :: 0 <= i < j < |told| ==> Less(told[i], told[j])
  }

  /** The callback is wanted for a prefix that holds v: always, or when v is the last value there. */
  predicate Wanted<V(==)>(m: Entries<V>, p: bytes, v: V, uniq: bool)
  {
    v in At(m, p) && (uniq ==> m[p] == {v})
  }

  /** Reports in order, each wanted prefix that is empty or begins below n exactly once. */
  ghost predicate ToldBelow<V>(told: seq<bytes>, m: Entries<V>, v: V, uniq: bool, n: int)
  {
    && Ascending(told)
    && (forall i :: 0 <= i < |told| ==> Wanted(m, told[i], v, uniq) && (told[i] != [] ==> told[i][0] < n))
    && (forall p :: Wanted(m, p, v, uniq) && (p != [] ==> p[0] < n) ==> p in told)
  }

  ghost predicate Told<V>(told: seq<bytes>, m: Entries<V>, v: V, uniq: bool)
  {
    ToldBelow(told, m, v, uniq, 256)
  }

  lemma {:induction false} LessIrreflexive(a: bytes)
    ensures !Less(a, a)
  {
    if a != [] { LessIrreflexive(a[1..]); }
  }

  /** a and b differ first at k, where a has the smaller byte. */
  ghost predicate Smaller(a: bytes, b: bytes, k: nat)
  {
    k < |a| && k < |b| && a[..k] == b[..k] && a[k] < b[k]
  }

  lemma SmallerNext(c: byte, a: bytes, b: bytes, k: nat)
    ensures Smaller([c] + a, [c] + b, k + 1) <==> Smaller(a, b, k)
  {
    var x, y := [c] + a, [c] + b;
    if k < |a| && k < |b| {
      assert x[..k + 1] == [c] + a[..k] && y[..k + 1] == [c] + b[..k];
      assert x[..k + 1][1..] == a[..k] && y[..k + 1][1..] == b[..k];
    }
  }

  /** A prefix comes before what it is a prefix of; otherwise the first byte that differs decides. */
  lemma {:induction false} LessIs(a: bytes, b: bytes)
    ensures Less(a, b) <==> a < b || exists k: nat :: Smaller(a, b, k)
  {
    if a != [] && b != [] {
      LessIs(a[1..], b[1..]);
      assert a == [a[0]] + a[1..] && b == [b[0]] + b[1..];
      if a[0] == b[0] {
        var x, y := a[1..], b[1..];
        if k: nat :| Smaller(a, b, k) {
          assert k > 0;
          SmallerNext(a[0], x, y, k - 1);
          assert Smaller(x, y, k - 1);
        }
        if k: nat :| Smaller(x, y, k) {
          SmallerNext(a[0], x, y, k);
          assert Smaller(a, b, k + 1);
        }
        assert a < b <==> x < y;
      } else {
        FirstDiffers(a, b);
        assert Smaller(a, b, 0) <==> a[0] < b[0];
      }
    }
  }

  lemma FirstDiffers(a: bytes, b: bytes)
    requires a != [] && b != [] && a[0] != b[0]
    ensures forall k: nat :: Smaller(a, b, k) <==> k == 0 && a[0] < b[0]
  {
    assert a[..0] == b[..0];
    forall k: nat | k > 0 ensures !Smaller(a, b, k) {
      if k <= |a| && k <= |b| {
        assert a[..k][0] == a[0] && b[..k][0] == b[0];
      }
    }
  }

  /** Reports are wanted where the value is gone now, and for the last values only where nothing is left. */
  lemma WantedIs<V>(m: Entries<V>, p: bytes, v: V, uniq: bool)
    ensures Wanted(m, p, v, uniq) <==> v in At(m, p) && (uniq ==> At(Cleared(m, v), p) == {})
    ensures At(Cleared(m, v), p) == At(m, p) - {v}
  {
    if v in At(m, p) {
      OthersLeft(m[p], v);
    }
  }

  /** So each wanted prefix is reported exactly once, and no other. */
  lemma ToldOnce<V>(told: seq<bytes>, m: Entries<V>, v: V, uniq: bool)
    requires Told(told, m, v, uniq)
    ensures Ascending(told) && forall p :: p in told <==> Wanted(m, p, v, uniq)
    ensures forall i, j :: 0 <= i < j < |told| ==> told[i] != told[j]
  {
    forall i, j | 0 <= i < j < |told| ensures told[i] != told[j] {
      LessIrreflexive(told[i]);
    }
  }

  function Prefixed(c: byte, told: seq<bytes>): (r: seq<bytes>)
    ensures |r| == |told|
    ensures forall i :: 0 <= i < |r| ==> r[i] == [c] + told[i]
  {
    seq(|told|, i requires 0 <= i < |told| => [c] + told[i])
  }

  lemma AscendingJoin(a: seq<bytes>, c: byte, b: seq<bytes>)
    requires Ascending(a) && Ascending(b) && forall i :: 0 <= i < |a| && a[i] != [] ==> a[i][0] < c
    ensures Ascending(a + Prefixed(c, b))
  {
    var t := a + Prefixed(c, b);
    forall i, j | 0 <= i < j < |t| ensures Less(t[i], t[j]) {
      if i >= |a| {
        assert t[i] == [c] + b[i - |a|] && t[j] == [c] + b[j - |a|];
        assert t[i][1..] == b[i - |a|] && t[j][1..] == b[j - |a|];
      } else if j >= |a| {
        assert t[j] == [c] + b[j - |a|];
      }
    }
  }

  /** The reports of the child of c come after those of the characters below it. */
  lemma ToldStep<V>(told: seq<bytes>, more: seq<bytes>, m: Entries<V>, pipes: Option<set<V>>, kids: Below<V>, v: V,
      uniq: bool, c: byte)
    requires Denotes(m, pipes, kids)
    requires ToldBelow(told, m, v, uniq, c as int) && Told(more, Under(kids, c), v, uniq)
    ensures ToldBelow(told + Prefixed(c, more), m, v, uniq, c + 1)
  {
    hide Denotes, Less;
    var t := told + Prefixed(c, more);
    AscendingJoin(told, c, more);
    forall p | p != [] ensures Wanted(m, p, v, uniq) == Wanted(Under(kids, p[0]), p[1..], v, uniq) {
      DenotesAt(m, pipes, kids, p);
    }
    forall i | 0 <= i < |t| ensures Wanted(m, t[i], v, uniq) && (t[i] != [] ==> t[i][0] < c + 1) {
      if i >= |told| {
        assert t[i] == [c] + more[i - |told|] && t[i][1..] == more[i - |told|];
      }
    }
    forall p | Wanted(m, p, v, uniq) && (p != [] ==> p[0] < c + 1) ensures p in t {
      if p != [] && p[0] == c {
        var j :| 0 <= j < |more| && more[j] == p[1..];
        assert p == [c] + more[j] == t[|told| + j];
      } else {
        assert p in told;
      }
    }
  }

  /** There is nothing to report of characters without a child. */
  lemma ToldSkip<V>(told: seq<bytes>, m: Entries<V>, pipes: Option<set<V>>, kids: Below<V>, v: V, uniq: bool,
      a: int, b: int)
    requires Denotes(m, pipes, kids) && ToldBelow(told, m, v, uniq, a)
    requires a <= b && forall c: byte :: a <= c < b ==> c !in kids
    ensures ToldBelow(told, m, v, uniq, b)
  {
    hide Denotes, Less;
    forall p | Wanted(m, p, v, uniq) && p != [] ensures p[0] in kids {
      DenotesAt(m, pipes, kids, p);
    }
  }

  /** The report of the node itself. */
  function HereTold<V(==)>(pipes: Option<set<V>>, v: V, uniq: bool): seq<bytes>
  {
    if pipes.Some? && v in pipes.value && (uniq ==> pipes.value == {v}) then [[]] else []
  }

  lemma ToldHere<V>(m: Entries<V>, pipes: Option<set<V>>, kids: Below<V>, v: V, uniq: bool)
    requires Denotes(m, pipes, kids)
    ensures ToldBelow(HereTold(pipes, v, uniq), m, v, uniq, 0)
  {
  }

  /** The reports of a node as its callback sees them: behind the path to the node. */
  function Paths(path: bytes, told: seq<bytes>): (r: seq<bytes>)
    ensures |r| == |told|
    ensures forall i :: 0 <= i < |r| ==> r[i] == path + told[i]
  {
    seq(|told|, i requires 0 <= i < |told| => path + told[i])
  }

  lemma PathsAtRoot(told: seq<bytes>)
    ensures Paths([], told) == told
  {
    assert forall i :: 0 <= i < |told| ==> [] + told[i] == told[i];
  }

  lemma PathsJoin(path: bytes, told: seq<bytes>, c: byte, more: seq<bytes>)
    ensures Paths(path, told) + Paths(path + [c], more) == Paths(path, told + Prefixed(c, more))
  {
    var a := Paths(path, told) + Paths(path + [c], more);
    var b := Paths(path, told + Prefixed(c, more));
    forall i | 0 <= i < |a| ensures a[i] == b[i] {
      if i >= |told| {
        assert path + [c] + more[i - |told|] == path + ([c] + more[i - |told|]);
      }
    }
  }

  // ----- The values that a message matches -----

  /** Calls for the values held at the prefixes of data shorter than n: lens[i] is the length of the prefix of
      the i-th call.  Shortest first, each value of each prefix exactly once. */
  ghost predicate MatchedBelow<V>(calls: seq<V>, lens: seq<nat>, m: Entries<V>, data: bytes, n: nat)
  {
    && |lens| == |calls|
    && (forall i, j :: 0 <= i < j < |lens| ==> lens[i] <= lens[j])
    && (forall i :: 0 <= i < |lens| ==> lens[i] < n && lens[i] <= |data| && calls[i] in At(m, data[..lens[i]]))
    && (forall i, j :: 0 <= i < j < |lens| && lens[i] == lens[j] ==> calls[i] != calls[j])
    && (forall k, v :: 0 <= k < n && k <= |data| && v in At(m, data[..k]) ==>
          exists i :: 0 <= i < |lens| && lens[i] == k && calls[i] == v)
  }

  ghost predicate Matched<V>(calls: seq<V>, lens: seq<nat>, m: Entries<V>, data: bytes)
  {
    MatchedBelow(calls, lens, m, data, |data| + 1)
  }

  ghost predicate Enumerates<V>(vs: seq<V>, s: set<V>)
  {
    (forall v :: v in vs ==> v in s) && (forall v :: v in s ==> v in vs) && forall i, j :: 0 <= i < j < |vs| ==>
        vs[i] != vs[j]
  }

  lemma MatchedStep<V>(calls: seq<V>, lens: seq<nat>, m: Entries<V>, data: bytes, n: nat, vs: seq<V>)
    requires MatchedBelow(calls, lens, m, data, n) && n <= |data| && Enumerates(vs, At(m, data[..n]))
    ensures MatchedBelow(calls + vs, lens + seq(|vs|, i => n), m, data, n + 1)
  {
    var c, l := calls + vs, lens + seq(|vs|, i => n);
    forall k, v | 0 <= k < n + 1 && k <= |data| && v in At(m, data[..k])
      ensures exists i :: 0 <= i < |l| && l[i] == k && c[i] == v
    {
      if k < n {
        var i :| 0 <= i < |lens| && lens[i] == k && calls[i] == v;
        assert l[i] == k && c[i] == v;
      } else {
        var i :| 0 <= i < |vs| && vs[i] == v;
        assert l[|lens| + i] == k && c[|lens| + i] == v;
      }
    }
  }

  /** What is below the node of a path. */
  ghost predicate Beneath<V>(sub: Entries<V>, m: Entries<V>, path: bytes)
  {
    forall p :: At(sub, p) == At(m, path + p)
  }

  lemma BeneathItself<V>(m: Entries<V>)
    ensures Beneath(m, m, [])
  {
    forall p: bytes ensures [] + p == p {}
  }

  lemma BeneathAt<V>(sub: Entries<V>, m: Entries<V>, path: bytes)
    requires Beneath(sub, m, path)
    ensures At(sub, []) == At(m, path)
  {
    assert path + [] == path;
  }

  lemma MatchedNothing<V>(m: Entries<V>, data: bytes)
    ensures MatchedBelow([], [], m, data, 0)
  {
  }

  lemma MatchedAll<V>(calls: seq<V>, lens: seq<nat>, m: Entries<V>, data: bytes, n: nat)
    requires MatchedBelow(calls, lens, m, data, n) && n <= |data| + 1
    requires forall k :: n <= k <= |data| ==> At(m, data[..k]) == {}
    ensures Matched(calls, lens, m, data)
  {
  }

  /** The values called are those of some prefix. */
  lemma MatchedCalls<V>(calls: seq<V>, lens: seq<nat>, m: Entries<V>, data: bytes)
    requires Matched(calls, lens, m, data)
    ensures forall v :: v in calls <==> exists k: nat :: k <= |data| && v in At(m, data[..k])
  {
    forall v | v in calls ensures exists k: nat :: k <= |data| && v in At(m, data[..k]) {
      var i: nat :| i < |calls| && calls[i] == v;
      assert v in At(m, data[..lens[i]]);
    }
  }

  lemma BeneathChild<V>(sub: Entries<V>, pipes: Option<set<V>>, kids: Below<V>, m: Entries<V>, path: bytes, c: byte)
    requires Denotes(sub, pipes, kids) && Beneath(sub, m, path) && c in kids
    ensures Beneath(kids[c], m, path + [c])
  {
    hide Denotes;
    forall p ensures At(kids[c], p) == At(m, path + [c] + p) {
      DenotesAt(sub, pipes, kids, [c] + p);
      assert ([c] + p)[1..] == p && path + ([c] + p) == path + [c] + p;
    }
  }

  lemma BeneathNone<V>(sub: Entries<V>, pipes: Option<set<V>>, kids: Below<V>, m: Entries<V>, data: bytes, k: nat)
    requires Denotes(sub, pipes, kids) && k < |data| && Beneath(sub, m, data[..k]) && data[k] !in kids
    ensures forall n :: k < n <= |data| ==> At(m, data[..n]) == {}
  {
    hide Denotes;
    forall n | k < n <= |data| ensures At(m, data[..n]) == {} {
      var p := data[k..n];
      assert data[..k] + p == data[..n];
      DenotesAt(sub, pipes, kids, p);
    }
  }

  lemma DenotesHere<V>(entries: Entries<V>, pipes: Option<set<V>>, kids: Below<V>)
    requires Denotes(entries, pipes, kids)
    ensures At(entries, []) == if pipes.Some? then pipes.value else {}
  {
  }
}
