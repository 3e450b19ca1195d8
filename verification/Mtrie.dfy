/** generic_mtrie_t of libzmq (src/generic_mtrie_impl.hpp) on the heap: every node holds a set of values, and
    its children either singly or in a table over a range of characters.  Each method is proved against the
    function on maps that it carries out, and keeps the shape of the nodes. */
module Mtrie {
  import opened Bytes
  import opened MtrieMap

  // ----- Tables of children -----

  function Nulls<V>(n: nat): (s: seq<Node?<V>>)
    ensures |s| == n && forall i :: 0 <= i < n ==> s[i] == null
  {
    seq(n, i => null)
  }

  /** A table from character min on that holds exactly these children. */
  ghost predicate Stored<V>(min: int, table: seq<Node?<V>>, kids: map<byte, Node<V>>)
  {
    && 0 <= min && min + |table| <= 256
    && (forall d: byte :: d in kids ==> min <= d < min + |table| && table[d - min] == kids[d])
    && (forall i :: 0 <= i < |table| && table[i] != null ==> (min + i) as byte in kids)
  }

  lemma StoredRight<V>(min: int, table: seq<Node?<V>>, kids: map<byte, Node<V>>, n: nat)
    requires Stored(min, table, kids) && min + |table| + n <= 256
    ensures Stored(min, table + Nulls(n), kids)
  {
  }

  lemma StoredLeft<V>(min: int, table: seq<Node?<V>>, kids: map<byte, Node<V>>, n: nat)
    requires Stored(min, table, kids) && n <= min
    ensures Stored(min - n, Nulls(n) + table, kids)
  {
    var t := Nulls(n) + table;
    assert forall i :: 0 <= i < |t| ==> t[i] == if i < n then null else table[i - n];
  }

  lemma StoredRange<V>(min: int, table: seq<Node?<V>>, kids: map<byte, Node<V>>, c: byte)
    requires Stored(min, table, kids)
    ensures 0 <= min && min + |table| <= 256
    ensures c in kids ==> min <= c < min + |table| && table[c - min] == kids[c]
    ensures min <= c < min + |table| && table[c - min] != null ==> c in kids
  {
  }

  lemma StoredSet<V>(min: int, table: seq<Node?<V>>, kids: map<byte, Node<V>>, c: byte, kid: Node<V>)
    requires Stored(min, table, kids) && min <= c < min + |table|
    ensures Stored(min, table[c - min := kid], kids[c := kid])
  {
  }

  lemma StoredUnset<V>(min: int, table: seq<Node?<V>>, kids: map<byte, Node<V>>, c: byte)
    requires Stored(min, table, kids) && min <= c < min + |table|
    ensures Stored(min, table[c - min := null], kids - {c})
  {
  }

  lemma StoredOne<V>(min: int, n: nat, c: byte, kid: Node<V>)
    requires 0 <= min <= c < min + n <= 256
    ensures Stored(min, Nulls(n)[c - min := kid], map[c := kid])
  {
  }

  /** The part of a table between two characters, with no child outside it. */
  lemma StoredPart<V>(min: int, table: seq<Node?<V>>, kids: map<byte, Node<V>>, lo: int, hi: int)
    requires Stored(min, table, kids) && min <= lo <= hi < min + |table|
    requires forall d :: d in kids ==> lo <= d <= hi
    ensures Stored(lo, table[lo - min..hi + 1 - min], kids)
  {
    var t := table[lo - min..hi + 1 - min];
    assert forall i :: 0 <= i < |t| ==> t[i] == table[lo - min + i];
  }

  lemma OnlyOne<K, T>(m: map<K, T>, k: K)
    requires |m| == 1 && k in m
    ensures m == map[k := m[k]]
  {
    var s := m.Keys - {k};
    assert |m.Keys| == 1;
    assert |s| == 0;
    forall x | x in m ensures x == k {
      assert x !in s;
    }
  }

  /** Two children span more than one character. */
  lemma Spread<T>(m: map<byte, T>, lo: int, hi: int)
    requires |m| >= 2 && forall d :: d in m ==> lo <= d <= hi
    ensures lo < hi
  {
    var k :| k in m;
    var s := m.Keys - {k};
    assert |m.Keys| >= 2;
    assert |s| >= 1;
    var j :| j in s;
  }

  lemma OneLess<K, T>(m: map<K, T>, k: K)
    requires k in m
    ensures |m - {k}| == |m| - 1
  {
    assert (m - {k}).Keys == m.Keys - {k};
  }

  lemma PartLeft<V>(min: byte, table: seq<Node?<V>>, kids: map<byte, Node<V>>, i: nat)
    requires Stored(min, table, kids) && |kids| >= 2 && i < |table|
    requires table[i] != null && forall k :: 0 <= k < i ==> table[k] == null
    ensures i < |table| - 1 && (min + i) as byte in kids && Stored(min + i, table[i..], kids)
  {
    hide Nulls;
    var n := |table|;
    Spread(kids, min + i, min + n - 1);
    StoredPart(min, table, kids, min + i, min + n - 1);
  }

  lemma PartRight<V>(min: byte, table: seq<Node?<V>>, kids: map<byte, Node<V>>, n: nat)
    requires Stored(min, table, kids) && |kids| >= 2 && 0 < n <= |table|
    requires table[n - 1] != null && forall k :: n <= k < |table| ==> table[k] == null
    ensures n > 1 && (min + n - 1) as byte in kids && Stored(min as int, table[..n], kids)
  {
    hide Nulls;
    Spread(kids, min as int, min + n - 1);
    StoredPart(min, table, kids, min as int, min + n - 1);
    assert table[0..n] == table[..n];
    assert (min + (n - 1)) as byte in kids;
  }

  /** new_min and new_max once the characters below n are done: the first and the last child so far. */
  ghost predicate Ends<T>(kids: map<byte, T>, newMin: byte, newMax: byte, lo: byte, hi: int, n: int)
  {
    && (forall d :: d in kids && d < n ==> newMin <= d <= newMax)
    && lo <= newMin <= hi && lo <= newMax <= hi
    && (newMin == hi || (newMin in kids && newMin < n))
    && (newMax == lo || (newMax in kids && newMax < n))
  }

  lemma EndsMeet<T>(kids: map<byte, T>, newMin: byte, newMax: byte, lo: byte, hi: int)
    requires Ends(kids, newMin, newMax, lo, hi, hi + 1) && kids != map[]
    requires forall d :: d in kids ==> lo <= d <= hi
    ensures newMin in kids && newMax in kids && forall d :: d in kids ==> newMin <= d <= newMax
  {
    var d :| d in kids;
    assert newMin <= d <= newMax;
  }

  /** How a node with these fields holds its children. */
  ghost predicate Holds<V>(min: byte, count: nat, liveNodes: nat, node: Node?<V>, table: seq<Node?<V>>,
      kids: map<byte, Node<V>>)
  {
    && liveNodes == |kids|
    && (count == 0 ==> kids == map[])
    && (count == 1 ==> node != null && kids == map[min := node])
    && (count > 1 ==>
          && |table| == count && Stored(min, table, kids) && |kids| >= 2
          && min in kids && (min + count - 1) as byte in kids)
  }

  /** There is a slot for character c, in use or free. */
  ghost predicate HasSlot<V>(c: byte, min: byte, count: nat, liveNodes: nat, node: Node?<V>, table: seq<Node?<V>>,
      kids: map<byte, Node<V>>)
  {
    if c in kids then Holds(min, count, liveNodes, node, table, kids)
    else
      && liveNodes == |kids|
      && (if count == 1 then min == c && node == null && kids == map[]
          else
            && count > 1 && |table| == count && Stored(min, table, kids) && min <= c < min + count && kids != map[]
            && (min in kids || min == c) && ((min + count - 1) as byte in kids || min + count - 1 == c))
  }

  // ----- The children together -----

  ghost function KidEntries<V>(kids: map<byte, Node<V>>): Below<V>
    reads kids.Values
  {
    map c | c in kids :: kids[c].entries
  }

  /** The children are well formed, and live in owned. */
  ghost predicate Housed<V>(kids: map<byte, Node<V>>, owned: set<object>)
    reads owned
    decreases owned, 1
  {
    forall c :: c in kids ==> kids[c] in owned && kids[c].Repr <= owned && kids[c].Valid()
  }

  /** They share nothing. */
  ghost predicate Apart<V>(kids: map<byte, Node<V>>, owned: set<object>)
    reads owned
  {
    forall c, d :: c in kids && d in kids && c != d ==>
      kids[c] in owned && kids[d] in owned && kids[c].Repr !! kids[d].Repr
  }

  lemma HousedMore<V>(kids: map<byte, Node<V>>, owned: set<object>, c: byte, child: Node<V>)
    requires Housed(kids, owned) && child.Valid()
    ensures Housed(kids[c := child], owned + child.Repr)
  {
    hide Node.Valid;
  }

  lemma ApartMore<V>(kids: map<byte, Node<V>>, owned: set<object>, c: byte, child: Node<V>)
    requires Housed(kids, owned) && Apart(kids, owned) && child.Valid() && child.Repr !! owned
    ensures Apart(kids[c := child], owned + child.Repr)
  {
    hide Node.Valid;
  }

  lemma Fewer<V>(kids: map<byte, Node<V>>, owned: set<object>, c: byte)
    requires Housed(kids, owned) && Apart(kids, owned)
    ensures Housed(kids - {c}, owned) && Apart(kids - {c}, owned)
    ensures KidEntries(kids - {c}) == KidEntries(kids) - {c}
  {
    hide Node.Valid;
  }

  lemma NotMine<V>(kids: map<byte, Node<V>>, owned: set<object>, n: Node<V>)
    requires Housed(kids, owned) && n !in owned
    ensures n !in kids.Values
  {
  }

  lemma KidHoused<V>(kids: map<byte, Node<V>>, owned: set<object>, c: byte)
    requires Housed(kids, owned) && c in kids
    ensures kids[c].Valid() && kids[c].Repr <= owned && kids[c] in kids[c].Repr
  {
  }

  /** The other children live outside the objects of the child of c. */
  lemma Siblings<V>(kids: map<byte, Node<V>>, owned: set<object>, c: byte)
    requires Housed(kids, owned) && Apart(kids, owned) && c in kids
    ensures Housed(kids - {c}, owned - kids[c].Repr) && Apart(kids - {c}, owned - kids[c].Repr)
    ensures (kids - {c}).Values <= owned - kids[c].Repr
  {
    hide Node.Valid;
    forall d | d in kids && d != c ensures kids[d].Repr !! kids[c].Repr && kids[d] in kids[d].Repr {
      KidHoused(kids, owned, d);
    }
  }

  /** Back together, after that child has changed. */
  lemma Rejoin<V>(kids: map<byte, Node<V>>, rest: set<object>, c: byte)
    requires c in kids && kids[c].Valid() && kids[c].Repr !! rest
    requires Housed(kids - {c}, rest) && Apart(kids - {c}, rest)
    ensures Housed(kids, rest + kids[c].Repr) && Apart(kids, rest + kids[c].Repr)
    ensures KidEntries(kids) == KidEntries(kids - {c})[c := kids[c].entries]
  {
    hide Node.Valid, Housed, Apart;
    HousedMore(kids - {c}, rest, c, kids[c]);
    ApartMore(kids - {c}, rest, c, kids[c]);
    assert (kids - {c})[c := kids[c]] == kids;
  }

  /** *buff_: the bytes of the path to the node at work, in an allocation that may be longer. */
  class PathBuffer {
    var data: bytes

    constructor ()
      ensures data == []
    {
      data := [];
    }

    /** realloc, which keeps what fits. */
    method Realloc(n: nat)
      modifies this
      ensures |data| == n
      ensures forall k :: 0 <= k < n && k < |old(data)| ==> data[k] == old(data)[k]
    {
      data := data[..Min(n, |data|)] + seq(n - Min(n, |data|), i => 0);
    }
  }

  class Node<V(==)> {
    var pipes: Option<set<V>>      // null, or a set that is not empty
    var min: byte
    var count: nat
    var liveNodes: nat
    var node: Node?<V>             // next.node, used while count is 1
    var table: seq<Node?<V>>       // next.table, used while count is above 1

    ghost var kids: map<byte, Node<V>>
    ghost var entries: Entries<V>
    ghost var Repr: set<object>

    ghost predicate Shape()
      reads this
    {
      Holds(min, count, liveNodes, node, table, kids)
    }

    ghost predicate Slot(c: byte)
      reads this
    {
      HasSlot(c, min, count, liveNodes, node, table, kids)
    }

    /** The children live in owned, apart from this node and from each other. */
    ghost predicate Family(owned: set<object>)
      reads this, owned
    {
      this !in owned && Housed(kids, owned) && Apart(kids, owned)
    }

    /** The node and everything below it is well formed, and no child is redundant. */
    ghost predicate Valid()
      reads this, Repr
      ensures Valid() ==> this in Repr
      decreases Repr, 0
    {
      && this in Repr
      && Housed(kids, Repr - {this}) && Apart(kids, Repr - {this})
      && Shape()
      && Denotes(entries, pipes, KidEntries(kids)) && NoneEmpty(KidEntries(kids))
    }

    lemma Parts()
      requires Valid()
      ensures this in Repr && Family(Repr - {this}) && Shape()
      ensures Denotes(entries, pipes, KidEntries(kids)) && NoneEmpty(KidEntries(kids))
    {
    }

    lemma Whole()
      requires this in Repr && Family(Repr - {this}) && Shape()
      requires Denotes(entries, pipes, KidEntries(kids)) && NoneEmpty(KidEntries(kids))
      ensures Valid()
    {
    }

    constructor ()
      ensures Valid() && fresh(Repr) && entries == map[]
    {
      pipes := None;
      min, count, liveNodes := 0, 0, 0;
      node, table := null, [];
      kids, entries, Repr := map[], map[], {this};
    }

    /** is_redundant */
    predicate IsRedundant()
      reads this
    {
      pipes.None? && liveNodes == 0
    }

    lemma RedundantIsEmpty()
      requires Valid()
      ensures IsRedundant() <==> entries == map[]
    {
      EmptyDenotes(entries, pipes, KidEntries(kids));
      assert liveNodes == |kids|;
      assert KidEntries(kids) == map[] <==> kids == map[] by {
        if kids != map[] {
          var c :| c in kids;
          assert c in KidEntries(kids);
        }
      }
    }

    /** The ghost fields catch up with the others. */
    ghost method Settle(owned: set<object>, e: Entries<V>, below: Below<V>)
      requires Family(owned) && Shape() && below == KidEntries(kids)
      requires Denotes(e, pipes, below) && NoneEmpty(below)
      modifies this`entries, this`Repr
      ensures Valid() && Repr == {this} + owned && entries == e
    {
      hide Housed, Apart, Holds, Denotes, NoneEmpty, Valid;
      NotMine(kids, owned, this);
      Repr := {this} + owned;
      entries := e;
      assert Repr - {this} == owned;
      Whole();
    }

    // ----- Adding -----

    /** The first part of add_helper: the table is extended to a character out of its range. */
    method Extend(c: byte)
      requires Shape()
      modifies this`min, this`count, this`node, this`table
      ensures Slot(c)
    {
      hide Stored, Nulls;
      if count > 1 {
        StoredRange(min, table, kids, c);
      }
      if c < min || c >= min + count {
        if count == 0 {
          min := c;
          count := 1;
          node := null;
        } else if count == 1 {
          var oldc, oldp := min, node;
          count := (if min < c then c - min else min - c) + 1;
          min := if min < c then min else c;
          table := Nulls(count)[oldc - min := oldp];
          StoredOne(min, count, oldc, oldp);
        } else if min < c {
          var oldCount := count;
          count := c - min + 1;
          StoredRight(min, table, kids, count - oldCount);
          table := table + Nulls(count - oldCount);
        } else {
          var oldCount := count;
          count := (min + oldCount) - c;
          StoredLeft(min, table, kids, min - c);
          table := Nulls(min - c) + table;
          min := c;
        }
      }
    }

    /** The slot of character c gets a child. */
    method PutChild(c: byte, child: Node<V>)
      requires Slot(c) && c !in kids
      modifies this`node, this`table, this`liveNodes, this`kids
      ensures Shape() && kids == old(kids)[c := child]
    {
      hide Stored;
      if count == 1 {
        node := child;
      } else {
        StoredSet(min, table, kids, c, child);
        table := table[c - min := child];
      }
      liveNodes := liveNodes + 1;
      kids := kids[c := child];
    }

    /** The child in the slot of character c, if any. */
    method ChildAt(c: byte) returns (child: Node?<V>)
      requires Slot(c)
      ensures if c in kids then child == kids[c] else child == null
    {
      hide Stored;
      if count > 1 {
        StoredRange(min, table, kids, c);
      }
      if count == 1 {
        child := node;
      } else {
        child := table[c - min];
      }
    }

    lemma KidsOf()
      ensures KidEntries(kids).Keys == kids.Keys
      ensures forall c :: c in kids ==> KidEntries(kids)[c] == kids[c].entries
    {
    }

    lemma SlotUsed(c: byte)
      requires c in kids
      ensures Slot(c) <==> Shape()
    {
    }

    /** A new child for character c. */
    method Adopt(c: byte, ghost owned: set<object>) returns (child: Node<V>, ghost owned': set<object>)
      requires Slot(c) && c !in kids && Family(owned)
      modifies this`node, this`table, this`liveNodes, this`kids
      ensures Shape() && Family(owned') && owned' >= owned && fresh(owned' - owned)
      ensures kids == old(kids)[c := child] && child.entries == map[]
    {
      hide Housed, Apart, Holds, HasSlot, Valid;
      child := new Node<V>();
      HousedMore(kids, owned, c, child);
      ApartMore(kids, owned, c, child);
      owned' := owned + child.Repr;
      assert this !in owned';
      PutChild(c, child);
    }

    /** The child for character c, created if there is none. */
    method ChildFor(c: byte, ghost owned: set<object>) returns (child: Node<V>, ghost owned': set<object>)
      requires Shape() && Family(owned)
      modifies this`min, this`count, this`node, this`table, this`liveNodes, this`kids
      ensures Shape() && Family(owned')
      ensures c in kids && child == kids[c] && owned' >= owned && fresh(owned' - owned)
      ensures child.entries == Under(old(KidEntries(kids)), c)
      ensures KidEntries(kids) == old(KidEntries(kids))[c := child.entries]
    {
      hide Housed, Apart, Holds, HasSlot, Valid;
      NotMine(kids, owned, this);
      Extend(c);
      var found := ChildAt(c);
      owned' := owned;
      if found == null {
        child, owned' := Adopt(c, owned);
      } else {
        child := found;
        SlotUsed(c);
      }
    }

    /** add_helper at the node of the prefix itself. */
    method AddHere(v: V) returns (first: bool)
      requires Valid()
      modifies this`pipes, this`entries, this`Repr
      ensures Valid() && Repr == old(Repr)
      ensures entries == Added(old(entries), [], v)
      ensures first == ([] !in old(entries))
    {
      hide Housed, Apart, Valid, Holds, KidEntries, NoneEmpty;
      Parts();
      ghost var owned := Repr - {this};
      NotMine(kids, owned, this);
      first := pipes.None?;
      pipes := Some(if pipes.None? then {v} else pipes.value + {v});
      Settle(owned, Added(entries, [], v), KidEntries(kids));
    }

    /** The rest of add_helper: the value is added in the child. */
    method AddBelow(c: byte, ghost owned: set<object>, rest: bytes, v: V) returns (first: bool)
      requires c in kids && Family(owned) && Shape()
      modifies owned
      ensures Family(owned + kids[c].Repr) && fresh(kids[c].Repr - owned)
      ensures KidEntries(kids) == old(KidEntries(kids))[c := Added(old(kids[c].entries), rest, v)]
      ensures first == (rest !in old(kids[c].entries))
      decreases |rest|, 1
    {
      hide Housed, Apart, Holds, HasSlot, Valid, Added, KidEntries;
      SlotUsed(c);
      var child := ChildAt(c);
      KidHoused(kids, owned, c);
      Siblings(kids, owned, c);
      ghost var others := owned - child.Repr;
      Rejoin(kids, others, c);
      first := child.AddHelper(rest, v);
      Rejoin(kids, others, c);
      assert others + child.Repr == owned + child.Repr;
    }

    /** add_helper: true iff the prefix had no value before. */
    method AddHelper(prefix: bytes, v: V) returns (first: bool)
      requires Valid()
      modifies Repr
      ensures Valid() && fresh(Repr - old(Repr)) && old(Repr) <= Repr
      ensures entries == Added(old(entries), prefix, v)
      ensures first == (prefix !in old(entries))
      decreases |prefix|, 0
    {
      hide Housed, Apart, Holds, Denotes, NoneEmpty, Valid, KidEntries, Added;
      if prefix == [] {
        first := AddHere(v);
        return;
      }
      Parts();
      var c := prefix[0];
      ghost var below := KidEntries(kids);
      AddDenotes(entries, pipes, below, prefix, v);
      var child;
      ghost var owned;
      child, owned := ChildFor(c, Repr - {this});
      first := AddBelow(c, owned, prefix[1..], v);
      below := below[c := Added(Under(below, c), prefix[1..], v)];
      assert KidEntries(kids) == below;
      Settle(owned + child.Repr, Added(entries, prefix, v), below);
    }

    // ----- Removing a value at a prefix -----

    /** rm_helper at the node of the prefix itself. */
    method RmHere(v: V) returns (r: RmResult)
      requires Valid()
      modifies this`pipes, this`entries, this`Repr
      ensures Valid() && Repr == old(Repr)
      ensures entries == Removed(old(entries), [], v)
      ensures r == Outcome(old(entries), [], v)
    {
      hide Housed, Apart, Valid, Holds, KidEntries, NoneEmpty;
      if pipes.None? {
        Parts();
        return NotFound;
      }
      Parts();
      ghost var owned := Repr - {this};
      NotMine(kids, owned, this);
      var erased := v in pipes.value;
      var left := pipes.value - {v};
      OthersLeft(pipes.value, v);
      if left == {} {
        assert erased;                      // zmq_assert (erased == 1)
        pipes := None;
        r := LastValueRemoved;
      } else {
        pipes := Some(left);
        r := if erased then ValuesRemain else NotFound;
      }
      Settle(owned, Removed(entries, [], v), KidEntries(kids));
    }

    /** The table when its only child is at character c becomes a single node. */
    method Single(i: nat)
      requires count > 1 && |table| == count && Stored(min, table, kids) && liveNodes == |kids| == 1
      requires i < count && table[i] != null
      modifies this`min, this`count, this`node, this`table
      ensures Shape()
    {
      ghost var c: byte := min + i;
      assert c in kids && kids[c] == table[i];
      OnlyOne(kids, c);
      min := min + i;
      count := 1;
      node := table[i];
      table := [];
    }

    /** The first child of the table at position from or later. */
    method FirstFrom(from: nat) returns (i: nat)
      requires |table| == count && exists k :: from <= k < count && table[k] != null
      ensures from <= i < count && table[i] != null && forall k :: from <= k < i ==> table[k] == null
    {
      i := from;
      while i < count && table[i] == null
        invariant from <= i <= count && forall k :: from <= k < i ==> table[k] == null
      {
        i := i + 1;
      }
      assert i < count;                     // zmq_assert (i < count)
    }

    /** How far the last child of the table is from its end, which is free. */
    method LastGap() returns (i: nat)
      requires |table| == count > 1 && table[0] != null
      ensures 1 <= i < count && table[count - 1 - i] != null
      ensures forall k :: count - i <= k < count - 1 ==> table[k] == null
    {
      i := 1;
      while i < count && table[count - 1 - i] == null
        invariant 1 <= i <= count && forall k :: count - i <= k < count - 1 ==> table[k] == null
        invariant i == count ==> table[0] == null
      {
        i := i + 1;
      }
      assert i < count;                     // zmq_assert (i < count)
    }

    /** The table without the i free places at its start. */
    method CompactLeft(i: nat)
      requires |table| == count > 1 && Stored(min, table, kids) && liveNodes == |kids| >= 2
      requires i < count && table[i] != null && forall k :: 0 <= k < i ==> table[k] == null
      requires (min + count - 1) as byte in kids
      modifies this`min, this`count, this`table
      ensures Shape()
    {
      hide Stored;
      PartLeft(min, table, kids, i);
      min := min + i;
      count := count - i;
      table := table[i..];
    }

    /** The table without the i free places at its end. */
    method CompactRight(i: nat)
      requires |table| == count > 1 && Stored(min, table, kids) && liveNodes == |kids| >= 2
      requires 1 <= i < count && table[count - 1 - i] != null
      requires forall k :: count - i <= k < count ==> table[k] == null
      requires min in kids
      modifies this`min, this`count, this`table
      ensures Shape()
    {
      hide Stored;
      PartRight(min, table, kids, count - i);
      count := count - i;
      table := table[..count];
    }

    /** The compaction of rm_helper after the child of c is gone. */
    method Compact(c: byte)
      requires |table| == count > 1 && Stored(min, table, kids) && liveNodes == |kids| >= 1
      requires min in kids || min == c
      requires (min + count - 1) as byte in kids || min + count - 1 == c
      requires min <= c < min + count && c !in kids
      modifies this`min, this`count, this`node, this`table
      ensures Shape()
    {
      if liveNodes == 1 {
        ghost var d :| d in kids;
        assert table[d - min] != null;
        var i := FirstFrom(0);
        Single(i);
      } else if c == min {
        assert table[count - 1] != null;
        var i := FirstFrom(1);
        assert table[0] == null;
        CompactLeft(i);
      } else if c == min + count - 1 {
        assert table[0] != null;
        var i := LastGap();
        CompactRight(i);
      }
    }

    /** The child in the table at c is taken out. */
    method PruneTable(c: byte)
      requires Shape() && c in kids && count > 1
      modifies this`min, this`count, this`liveNodes, this`node, this`table, this`kids
      ensures Shape() && kids == old(kids) - {c}
    {
      hide Stored;
      StoredRange(min, table, kids, c);
      StoredUnset(min, table, kids, c);
      OneLess(kids, c);
      kids := kids - {c};
      table := table[c - min := null];
      assert liveNodes > 1;                 // zmq_assert (live_nodes > 1)
      liveNodes := liveNodes - 1;
      Compact(c);
    }

    /** The child of c is taken out of its slot, and the table compacted if possible. */
    method Prune(c: byte)
      requires Shape() && c in kids
      modifies this`min, this`count, this`liveNodes, this`node, this`table, this`kids
      ensures Shape() && kids == old(kids) - {c}
    {
      hide Stored;
      if count == 1 {
        kids := kids - {c};
        node := null;
        count := 0;
        liveNodes := liveNodes - 1;
        assert liveNodes == 0;              // zmq_assert (live_nodes == 0)
      } else {
        PruneTable(c);
      }
    }

    /** The child for character c, null if there is none. */
    method Find(c: byte) returns (child: Node?<V>)
      requires Shape()
      ensures if c in kids then child == kids[c] else child == null
    {
      hide Stored;
      if count > 1 {
        StoredRange(min, table, kids, c);
      }
      if count == 0 || c < min || c >= min + count {
        return null;
      }
      child := if count == 1 then node else table[c - min];
    }

    /** The child of c is dropped if it is redundant: the rest of rm_helper. */
    method Reap(c: byte, child: Node<V>, ghost owned: set<object>)
      requires Shape() && Family(owned) && c in kids && child == kids[c]
      modifies this`min, this`count, this`liveNodes, this`node, this`table, this`kids
      ensures Shape() && Family(owned)
      ensures KidEntries(kids) == With(old(KidEntries(kids)), c, old(child.entries))
    {
      hide Housed, Apart, Holds, Valid;
      KidHoused(kids, owned, c);
      child.RedundantIsEmpty();
      Fewer(kids, owned, c);
      if child.IsRedundant() {
        NotMine(kids, owned, this);
        Prune(c);
      } else {
        assert KidEntries(kids)[c := child.entries] == KidEntries(kids);
      }
    }

    /** rm_helper in the child. */
    method RmBelow(c: byte, child: Node<V>, ghost owned: set<object>, rest: bytes, v: V) returns (r: RmResult)
      requires c in kids && child == kids[c] && Family(owned)
      modifies owned
      ensures Family(owned)
      ensures KidEntries(kids) == old(KidEntries(kids))[c := Removed(old(child.entries), rest, v)]
      ensures child.entries == Removed(old(child.entries), rest, v)
      ensures r == Outcome(old(child.entries), rest, v)
      decreases |rest|, 1
    {
      hide Housed, Apart, Valid, Removed, Outcome, KidEntries, Tells;
      KidHoused(kids, owned, c);
      Siblings(kids, owned, c);
      ghost var others := owned - child.Repr;
      Rejoin(kids, others, c);
      r := child.RmHelper(rest, v);
      Rejoin(kids, others, c);
      assert others + child.Repr == owned;
    }

    /** rm_helper in the child, which is dropped if that leaves it redundant. */
    method RmChild(c: byte, child: Node<V>, ghost owned: set<object>, rest: bytes, v: V) returns (r: RmResult)
      requires Shape() && Family(owned) && c in kids && child == kids[c]
      modifies owned, this`min, this`count, this`liveNodes, this`node, this`table, this`kids
      ensures Shape() && Family(owned)
      ensures KidEntries(kids) == With(old(KidEntries(kids)), c, Removed(old(child.entries), rest, v))
      ensures r == Outcome(old(child.entries), rest, v)
      decreases |rest|, 2
    {
      hide Housed, Apart, Holds, HasSlot, Valid, Removed, Outcome, KidEntries, With;
      NotMine(kids, owned, this);
      ghost var below, m := KidEntries(kids), Removed(child.entries, rest, v);
      r := RmBelow(c, child, owned, rest, v);
      Reap(c, child, owned);
      WithTwice(below, c, m);
    }

    /** rm_helper: what became of the value at the prefix. */
    method RmHelper(prefix: bytes, v: V) returns (r: RmResult)
      requires Valid()
      modifies Repr
      ensures Valid() && Repr == old(Repr)
      ensures entries == Removed(old(entries), prefix, v)
      ensures r == Outcome(old(entries), prefix, v) && Tells(r, old(entries), entries, prefix, v)
      decreases |prefix|, 0
    {
      hide Housed, Apart, Holds, Denotes, NoneEmpty, Valid, KidEntries, Removed, Outcome, With, Tells;
      OutcomeTells(entries, prefix, v);
      if prefix == [] {
        r := RmHere(v);
        return;
      }
      Parts();
      var c := prefix[0];
      ghost var below, owned := KidEntries(kids), Repr - {this};
      RemoveDenotes(entries, pipes, below, prefix, v);
      KidsOf();
      var child := Find(c);
      if child == null {
        NothingThere(entries, pipes, below, prefix, v);
        return NotFound;
      }
      r := RmChild(c, child, owned, prefix[1..], v);
      Settle(owned, Removed(entries, prefix, v), With(below, c, Removed(Under(below, c), prefix[1..], v)));
    }

    // ----- Removing a value everywhere -----

    /** The first part of rm_helper: the value is removed here, and reported. */
    method ClearHere(v: V, path: bytes, uniq: bool) returns (calls: seq<bytes>, ghost told: seq<bytes>)
      requires pipes.Some? ==> pipes.value != {}
      modifies this`pipes
      ensures pipes == ClearedValues(old(pipes), v)
      ensures told == HereTold(old(pipes), v, uniq) && calls == Paths(path, told)
    {
      assert path + [] == path;
      calls, told := [], [];
      if pipes.Some? && v in pipes.value {
        OthersLeft(pipes.value, v);
        pipes := Some(pipes.value - {v});
        if !uniq || pipes.value == {} {
          calls, told := [path], [[]];
        }
        if pipes.value == {} {
          pipes := None;
        }
      } else if pipes.Some? {
        assert pipes.value - {v} == pipes.value;
      }
    }

    /** "Adjust the buffer": there is room for one more character of the path. */
    method Grow(buff: PathBuffer, buffsize: nat, maxbuffsize: nat) returns (room: nat)
      requires buffsize <= |buff.data| && maxbuffsize <= |buff.data|
      modifies buff
      ensures buffsize < room <= |buff.data| && maxbuffsize <= room
      ensures buff.data[..buffsize] == old(buff.data[..buffsize])
    {
      room := maxbuffsize;
      if buffsize >= room {
        room := buffsize + 256;
        buff.Realloc(room);
      }
    }

    /** rm_helper in the child of c. */
    method ClearBelow(c: byte, child: Node<V>, ghost owned: set<object>, v: V, buff: PathBuffer,
        buffsize: nat, maxbuffsize: nat, uniq: bool)
      returns (calls: seq<bytes>, ghost told: seq<bytes>)
      requires c in kids && child == kids[c] && Family(owned) && buff !in owned
      requires buffsize <= |buff.data| && maxbuffsize <= |buff.data|
      modifies owned, buff
      ensures Family(owned)
      ensures KidEntries(kids) == old(KidEntries(kids))[c := Cleared(old(child.entries), v)]
      ensures child.entries == Cleared(old(child.entries), v)
      ensures buffsize <= |buff.data| && maxbuffsize <= |buff.data|
      ensures buff.data[..buffsize] == old(buff.data[..buffsize])
      ensures Told(told, old(child.entries), v, uniq) && calls == Paths(old(buff.data[..buffsize]), told)
      decreases owned, 1
    {
      hide Housed, Apart, Valid, Cleared, KidEntries, Told, Paths;
      KidHoused(kids, owned, c);
      Siblings(kids, owned, c);
      ghost var others := owned - child.Repr;
      Rejoin(kids, others, c);
      calls, told := child.ClearHelper(v, buff, buffsize, maxbuffsize, uniq);
      Rejoin(kids, others, c);
      assert others + child.Repr == owned;
    }

    /** rm_helper with callbacks: the value is removed from this node and everything below it. */
    method ClearHelper(v: V, buff: PathBuffer, buffsize: nat, maxbuffsize: nat, uniq: bool)
      returns (calls: seq<bytes>, ghost told: seq<bytes>)
      requires Valid() && buff !in Repr && buffsize <= |buff.data| && maxbuffsize <= |buff.data|
      modifies Repr, buff
      ensures Valid() && Repr == old(Repr)
      ensures entries == Cleared(old(entries), v)
      ensures buffsize <= |buff.data| && maxbuffsize <= |buff.data|
      ensures buff.data[..buffsize] == old(buff.data[..buffsize])
      ensures Told(told, old(entries), v, uniq) && calls == Paths(old(buff.data[..buffsize]), told)
      decreases Repr, 0
    {
      hide Housed, Apart, Holds, Denotes, NoneEmpty, Valid, KidEntries, Cleared, ToldBelow, HereTold, ClearedValues;
      Parts();
      ghost var below, owned, values := KidEntries(kids), Repr - {this}, pipes;
      NotMine(kids, owned, this);
      ToldHere(entries, values, below, v, uniq);
      DenotesSome(entries, values, below);
      calls, told := ClearHere(v, buff.data[..buffsize], uniq);
      var room := Grow(buff, buffsize, maxbuffsize);
      calls, told := ClearKids(calls, told, entries, values, below, owned, v, buff, buffsize, room, uniq);
      ClearDenotes(entries, values, below, v);
      assert KidEntries(kids) == ClearedBelow(below, v, 256);
      Settle(owned, Cleared(entries, v), ClearedBelow(below, v, 256));
    }

    /** The child of c is cleared, and its reports put behind those of the characters below c. */
    method ClearKid(c: byte, child: Node<V>, before: seq<bytes>, ghost toldBefore: seq<bytes>, ghost m: Entries<V>,
        ghost values: Option<set<V>>, ghost below: Below<V>, ghost owned: set<object>, v: V,
        buff: PathBuffer, buffsize: nat, room: nat, uniq: bool)
      returns (calls: seq<bytes>, ghost told: seq<bytes>)
      requires c in kids && child == kids[c] && Family(owned) && buff !in owned
      requires buffsize < room <= |buff.data| && buff.data[buffsize] == c
      requires Denotes(m, values, below) && KidEntries(kids) == ClearedBelow(below, v, c as int)
      requires ToldBelow(toldBefore, m, v, uniq, c as int) && before == Paths(buff.data[..buffsize], toldBefore)
      modifies owned, buff
      ensures Family(owned)
      ensures KidEntries(kids) == old(KidEntries(kids))[c := Cleared(Under(below, c), v)]
      ensures child.entries == Cleared(Under(below, c), v)
      ensures room <= |buff.data| && buff.data[..buffsize] == old(buff.data[..buffsize])
      ensures ToldBelow(told, m, v, uniq, c + 1) && calls == Paths(old(buff.data[..buffsize]), told)
      decreases owned, 2
    {
      hide Housed, Apart, Valid, Cleared, ClearedBelow, KidEntries, ToldBelow, Denotes, Paths;
      ghost var path := buff.data[..buffsize];
      assert buff.data[..buffsize + 1] == path + [c];
      KidsOf();
      ClearedNext(below, v, c);
      var more;
      ghost var moreTold;
      more, moreTold := ClearBelow(c, child, owned, v, buff, buffsize + 1, room, uniq);
      assert buff.data[..buffsize] == buff.data[..buffsize + 1][..buffsize] == path;
      ToldStep(toldBefore, moreTold, m, values, below, v, uniq, c);
      PathsJoin(path, toldBefore, c, moreTold);
      calls, told := before + more, toldBefore + Prefixed(c, moreTold);
    }

    /** The table and what is left in it, while it is walked. */
    ghost predicate Walked()
      reads this
    {
      |table| == count > 1 && Stored(min, table, kids) && liveNodes == |kids|
    }

    /** The child at character c is dropped from the table if it is redundant. */
    method DropAt(c: byte, child: Node<V>, ghost owned: set<object>) returns (live: bool)
      requires Walked() && Family(owned) && c in kids && child == kids[c]
      modifies this`liveNodes, this`table, this`kids
      ensures Walked() && Family(owned) && live == (c in kids)
      ensures KidEntries(kids) == With(old(KidEntries(kids)), c, old(child.entries))
      ensures kids == if live then old(kids) else old(kids) - {c}
    {
      hide Housed, Apart, Stored, Valid;
      KidHoused(kids, owned, c);
      child.RedundantIsEmpty();
      Fewer(kids, owned, c);
      NotMine(kids, owned, this);
      live := !child.IsRedundant();
      if !live {
        StoredRange(min, table, kids, c);
        StoredUnset(min, table, kids, c);
        OneLess(kids, c);
        table := table[c - min := null];
        assert liveNodes > 0;               // zmq_assert (live_nodes > 0)
        liveNodes := liveNodes - 1;
        kids := kids - {c};
      } else {
        assert KidEntries(kids)[c := child.entries] == KidEntries(kids);
      }
    }

    /** The table after the walk: freed, turned into a single node, or cut to what is left. */
    method CompactWalked(newMin: byte, newMax: byte)
      requires Walked()
      requires Ends(kids, newMin, newMax, min, min + count - 1, min + count)
      modifies this`min, this`count, this`node, this`table
      ensures Shape()
    {
      hide Ends, Stored;
      if liveNodes == 0 {
        table := [];
        count := 0;
        return;
      }
      WalkedRange();
      EndsMeet(kids, newMin, newMax, min, min + count - 1);
      StoredRange(min, table, kids, newMin);
      if liveNodes == 1 {
        OnlyOne(kids, newMin);
        assert newMin == newMax;            // zmq_assert (new_min == new_max)
        assert table[newMin - min] != null; // zmq_assert (node)
        Single(newMin - min);
      } else {
        Spread(kids, newMin as int, newMax as int);
        if newMin > min || newMax < min + count - 1 {
          CutTable(newMin, newMax);
        }
      }
    }

    lemma WalkedRange()
      requires Walked()
      ensures min + count <= 256
      ensures forall d :: d in kids ==> min <= d < min + count
    {
    }

    /** The table from newMin to newMax. */
    method CutTable(newMin: byte, newMax: byte)
      requires Walked() && liveNodes >= 2
      requires newMin in kids && newMax in kids && forall d :: d in kids ==> newMin <= d <= newMax
      requires newMin > min || newMax < min + count - 1
      modifies this`min, this`count, this`table
      ensures Shape()
    {
      hide Stored;
      WalkedRange();
      Spread(kids, newMin as int, newMax as int);
      StoredPart(min, table, kids, newMin as int, newMax as int);
      assert newMax - newMin + 1 > 1;       // zmq_assert (new_max - new_min + 1 > 1)
      assert newMax - newMin + 1 < count;   // zmq_assert (new_max - new_min + 1 < count)
      table := table[newMin - min..newMax + 1 - min];
      count := newMax - newMin + 1;
      min := newMin;
    }

    lemma WalkedAt(i: nat)
      requires Walked() && i < count
      ensures min + i < 256 && |table| == count
      ensures table[i] != null <==> (min + i) as byte in kids
      ensures table[i] != null ==> kids[(min + i) as byte] == table[i]
    {
    }

    /** One place of the table. */
    method ClearSlot(i: nat, before: seq<bytes>, ghost toldBefore: seq<bytes>, ghost m: Entries<V>,
        ghost values: Option<set<V>>, ghost below: Below<V>, ghost owned: set<object>, v: V,
        buff: PathBuffer, buffsize: nat, room: nat, uniq: bool)
      returns (calls: seq<bytes>, ghost told: seq<bytes>, live: bool)
      requires Walked() && i < count && min + i < 256 && Family(owned) && buff !in owned
      requires buffsize < room <= |buff.data|
      requires Denotes(m, values, below) && KidEntries(kids) == ClearedBelow(below, v, min + i)
      requires ToldBelow(toldBefore, m, v, uniq, min + i) && before == Paths(buff.data[..buffsize], toldBefore)
      modifies this`liveNodes, this`table, this`kids, owned, buff
      ensures Walked() && Family(owned)
      ensures KidEntries(kids) == ClearedBelow(below, v, min + i + 1)
      ensures live == ((min + i) as byte in kids) && (kids == old(kids) || kids == old(kids) - {(min + i) as byte})
      ensures room <= |buff.data| && buff.data[..buffsize] == old(buff.data[..buffsize])
      ensures ToldBelow(told, m, v, uniq, min + i + 1) && calls == Paths(old(buff.data[..buffsize]), told)
      decreases owned, 3
    {
      hide Housed, Apart, Valid, Cleared, ClearedBelow, KidEntries, ToldBelow, Denotes, Paths, Walked, With, Under;
      WalkedAt(i);
      var c: byte := min + i;
      buff.data := buff.data[buffsize := c];
      KidsOf();
      ClearedNext(below, v, c);
      var child := table[i];
      if child != null {
        calls, told := ClearKid(c, child, before, toldBefore, m, values, below, owned, v, buff, buffsize, room, uniq);
        live := DropAt(c, child, owned);
        ClearedStep(below, v, c);
        WithTwice(ClearedBelow(below, v, c as int), c, Cleared(Under(below, c), v));
      } else {
        calls, told, live := before, toldBefore, false;
        ToldSkip(told, m, values, below, v, uniq, c as int, c as int + 1);
        ClearedSkip(below, v, c as int, c as int + 1);
      }
    }

    /** The table is walked from left to right. */
    method ClearTable(before: seq<bytes>, ghost toldBefore: seq<bytes>, ghost m: Entries<V>,
        ghost values: Option<set<V>>,
        ghost below: Below<V>, ghost owned: set<object>, v: V, buff: PathBuffer, buffsize: nat, room: nat, uniq: bool)
      returns (calls: seq<bytes>, ghost told: seq<bytes>, newMin: byte, newMax: byte)
      requires Walked() && min + count <= 256 && Family(owned) && buff !in owned
      requires buffsize < room <= |buff.data|
      requires Denotes(m, values, below) && KidEntries(kids) == ClearedBelow(below, v, min as int)
      requires ToldBelow(toldBefore, m, v, uniq, min as int) && before == Paths(buff.data[..buffsize], toldBefore)
      requires count > 1 && forall d :: d in kids ==> min <= d
      modifies this`liveNodes, this`table, this`kids, owned, buff
      ensures Walked() && Family(owned)
      ensures Ends(kids, newMin, newMax, min, min + count - 1, min + count)
      ensures KidEntries(kids) == ClearedBelow(below, v, min + count)
      ensures room <= |buff.data| && buff.data[..buffsize] == old(buff.data[..buffsize])
      ensures ToldBelow(told, m, v, uniq, min + count) && calls == Paths(old(buff.data[..buffsize]), told)
      decreases owned, 4
    {
      hide Housed, Apart, Valid, Cleared, ClearedBelow, KidEntries, ToldBelow, Denotes, Paths, Walked;
      ghost var path := buff.data[..buffsize];
      newMin, newMax := min + count - 1, min;
      calls, told := before, toldBefore;
      var i := 0;
      while i < count
        invariant 0 <= i <= count && Walked() && Family(owned)
        invariant KidEntries(kids) == ClearedBelow(below, v, min + i)
        invariant Ends(kids, newMin, newMax, min, min + count - 1, min + i)
        invariant forall d :: d in kids ==> min <= d
        invariant room <= |buff.data| && buff.data[..buffsize] == path
        invariant ToldBelow(told, m, v, uniq, min + i) && calls == Paths(path, told)
      {
        var c: byte := min + i;
        var live;
        calls, told, live := ClearSlot(i, calls, told, m, values, below, owned, v, buff, buffsize, room, uniq);
        if live {
          newMin, newMax := if c < newMin then c else newMin, if c > newMax then c else newMax;
        }
        i := i + 1;
      }
    }

    /** The only child is dropped if it is redundant. */
    method DropNode(c: byte, child: Node<V>, ghost owned: set<object>)
      requires Shape() && count == 1 && Family(owned) && c in kids && child == kids[c]
      modifies this`count, this`liveNodes, this`node, this`kids
      ensures Shape() && Family(owned)
      ensures KidEntries(kids) == With(old(KidEntries(kids)), c, old(child.entries))
    {
      hide Housed, Apart, Stored, Valid;
      KidHoused(kids, owned, c);
      child.RedundantIsEmpty();
      Fewer(kids, owned, c);
      NotMine(kids, owned, this);
      if child.IsRedundant() {
        node := null;
        count := 0;
        OneLess(kids, c);
        liveNodes := liveNodes - 1;
        kids := kids - {c};
        assert liveNodes == 0;              // zmq_assert (live_nodes == 0)
      } else {
        assert KidEntries(kids)[c := child.entries] == KidEntries(kids);
      }
    }

    lemma TableRange()
      requires Shape() && count > 1
      ensures Walked() && min + count <= 256
      ensures forall d :: d in kids ==> min <= d < min + count
    {
    }

    /** A node with a single child. */
    method ClearOne(before: seq<bytes>, ghost toldBefore: seq<bytes>, ghost m: Entries<V>, ghost values: Option<set<V>>,
        ghost below: Below<V>, ghost owned: set<object>, v: V, buff: PathBuffer, buffsize: nat, room: nat, uniq: bool)
      returns (calls: seq<bytes>, ghost told: seq<bytes>)
      requires Shape() && count == 1 && Family(owned) && buff !in owned
      requires buffsize < room <= |buff.data|
      requires Denotes(m, values, below) && KidEntries(kids) == ClearedBelow(below, v, min as int)
      requires ToldBelow(toldBefore, m, v, uniq, min as int) && before == Paths(buff.data[..buffsize], toldBefore)
      modifies this`count, this`liveNodes, this`node, this`kids, owned, buff
      ensures Shape() && Family(owned)
      ensures KidEntries(kids) == ClearedBelow(below, v, min + 1)
      ensures room <= |buff.data| && buff.data[..buffsize] == old(buff.data[..buffsize])
      ensures ToldBelow(told, m, v, uniq, min + 1) && calls == Paths(old(buff.data[..buffsize]), told)
      decreases owned, 3
    {
      hide Housed, Apart, Valid, Cleared, ClearedBelow, KidEntries, ToldBelow, Denotes, Paths, Stored, With;
      var c := min;
      buff.data := buff.data[buffsize := c];
      calls, told := ClearKid(c, node, before, toldBefore, m, values, below, owned, v, buff, buffsize, room, uniq);
      ClearedStep(below, v, c);
      WithTwice(ClearedBelow(below, v, c as int), c, Cleared(Under(below, c), v));
      DropNode(c, node, owned);
    }

    /** The rest of rm_helper: the children are cleared from left to right, and what is left is compacted. */
    method ClearKids(before: seq<bytes>, ghost toldBefore: seq<bytes>, ghost m: Entries<V>,
        ghost values: Option<set<V>>,
        ghost below: Below<V>, ghost owned: set<object>, v: V, buff: PathBuffer, buffsize: nat, room: nat, uniq: bool)
      returns (calls: seq<bytes>, ghost told: seq<bytes>)
      requires Shape() && Family(owned) && buff !in owned
      requires buffsize < room <= |buff.data|
      requires Denotes(m, values, below) && KidEntries(kids) == below
      requires ToldBelow(toldBefore, m, v, uniq, 0) && before == Paths(buff.data[..buffsize], toldBefore)
      modifies this`min, this`count, this`liveNodes, this`node, this`table, this`kids, owned, buff
      ensures Shape() && Family(owned)
      ensures KidEntries(kids) == ClearedBelow(below, v, 256)
      ensures room <= |buff.data| && buff.data[..buffsize] == old(buff.data[..buffsize])
      ensures Told(told, m, v, uniq) && calls == Paths(old(buff.data[..buffsize]), told)
      decreases owned, 5
    {
      hide Housed, Apart, Valid, Cleared, ClearedBelow, KidEntries, ToldBelow, Denotes, Paths, Walked, Ends;
      KidsOf();
      ClearedNothing(below, v);
      if count == 0 {
        ToldSkip(toldBefore, m, values, below, v, uniq, 0, 256);
        ClearedSkip(below, v, 0, 256);
        return before, toldBefore;
      }
      var newMin, newMax;
      ghost var begin, end := min as int, min + count;
      if count > 1 {
        TableRange();
      }
      ToldSkip(toldBefore, m, values, below, v, uniq, 0, begin);
      ClearedSkip(below, v, 0, begin);
      if count == 1 {
        calls, told := ClearOne(before, toldBefore, m, values, below, owned, v, buff, buffsize, room, uniq);
      } else {
        calls, told, newMin, newMax :=
          ClearTable(before, toldBefore, m, values, below, owned, v, buff, buffsize, room, uniq);
        NotMine(kids, owned, this);
        CompactWalked(newMin, newMax);
      }
      ToldSkip(told, m, values, below, v, uniq, end, 256);
      ClearedSkip(below, v, end, 256);
    }

    /** rm with a callback, at the root: the prefixes reported are those of the value, or those it was the last at. */
    method RmAll(v: V, uniq: bool) returns (calls: seq<bytes>)
      requires Valid()
      modifies Repr
      ensures Valid() && Repr == old(Repr)
      ensures entries == Cleared(old(entries), v)
      ensures Ascending(calls) && forall p :: p in calls <==> Wanted(old(entries), p, v, uniq)
      ensures forall p :: p in calls <==> v in At(old(entries), p) && (uniq ==> At(entries, p) == {})
      ensures forall p :: At(entries, p) == At(old(entries), p) - {v}
    {
      hide Valid, Cleared, ToldBelow, Wanted, Less;
      forall p
        ensures Wanted(entries, p, v, uniq) <==> v in At(entries, p) && (uniq ==> At(Cleared(entries, v), p) == {})
        ensures At(Cleared(entries, v), p) == At(entries, p) - {v}
      {
        WantedIs(entries, p, v, uniq);
      }
      var buff := new PathBuffer();
      ghost var told;
      calls, told := ClearHelper(v, buff, 0, 0, uniq);
      PathsAtRoot(told);
      ToldOnce(told, old(entries), v, uniq);
    }

    // ----- Matching -----

    /** One call for each value of this node, in some order. */
    method Signal() returns (vs: seq<V>)
      ensures Enumerates(vs, if pipes.Some? then pipes.value else {})
    {
      vs := [];
      if pipes.Some? {
        var left := pipes.value;
        while left != {}
          invariant left <= pipes.value && Enumerates(vs, pipes.value - left)
          decreases |left|
        {
          var v :| v in left;
          left := left - {v};
          vs := vs + [v];
        }
      }
    }

    /** The values of this node, which is at the prefix of length k. */
    method SignalAt(before: seq<V>, ghost lensBefore: seq<nat>, ghost m: Entries<V>, data: bytes, k: nat)
      returns (calls: seq<V>, ghost lens: seq<nat>)
      requires Valid() && k <= |data| && Beneath(entries, m, data[..k])
      requires MatchedBelow(before, lensBefore, m, data, k)
      ensures MatchedBelow(calls, lens, m, data, k + 1)
    {
      hide Valid, Denotes, NoneEmpty, MatchedBelow, Enumerates, Holds, KidEntries, Housed, Apart, Beneath;
      Parts();
      DenotesHere(entries, pipes, KidEntries(kids));
      BeneathAt(entries, m, data[..k]);
      var vs := Signal();
      MatchedStep(before, lensBefore, m, data, k, vs);
      calls, lens := before + vs, lensBefore + seq(|vs|, i => k);
    }

    /** The next node on the path of data, or null if no prefix of data longer than k holds anything. */
    method Next(ghost m: Entries<V>, data: bytes, k: nat) returns (next: Node?<V>)
      requires Valid() && k < |data| && Beneath(entries, m, data[..k])
      ensures next == null ==> forall n :: k < n <= |data| ==> At(m, data[..n]) == {}
      ensures next != null ==> next.Valid() && Beneath(next.entries, m, data[..k + 1])
    {
      hide Valid, Denotes, NoneEmpty, Holds, KidEntries, Housed, Apart, Beneath;
      Parts();
      KidsOf();
      next := Find(data[k]);
      if next == null {
        BeneathNone(entries, pipes, KidEntries(kids), m, data, k);
      } else {
        BeneathChild(entries, pipes, KidEntries(kids), m, data[..k], data[k]);
        assert data[..k] + [data[k]] == data[..k + 1];
        KidHoused(kids, Repr - {this}, data[k]);
      }
    }

    /** match: one call for each value of each prefix of data, the shortest prefix first. */
    method Match(data: bytes) returns (calls: seq<V>, ghost lens: seq<nat>)
      requires Valid()
      ensures Matched(calls, lens, entries, data)
      ensures forall v :: v in calls <==> exists k: nat :: k <= |data| && v in At(entries, data[..k])
    {
      hide Valid, MatchedBelow, Beneath;
      var current: Node<V> := this;
      var k := 0;
      calls, lens := [], [];
      BeneathItself(entries);
      MatchedNothing(entries, data);
      while true
        invariant 0 <= k <= |data| && current.Valid()
        invariant Beneath(current.entries, entries, data[..k])
        invariant MatchedBelow(calls, lens, entries, data, k)
        decreases |data| - k
      {
        calls, lens := current.SignalAt(calls, lens, entries, data, k);
        if k == |data| {
          break;
        }
        var next := current.Next(entries, data, k);
        if next == null {
          MatchedAll(calls, lens, entries, data, k + 1);
          break;
        }
        current, k := next, k + 1;
      }
      MatchedCalls(calls, lens, entries, data);
    }

    // ----- Runs -----

    /** Any sequence of operations on a trie. */
    method Replay(ops: seq<Op<V>>)
      requires Valid()
      modifies Repr
      ensures Valid() && fresh(Repr - old(Repr))
      ensures entries == Run(old(entries), ops)
    {
      hide Valid, Do;
      for i := 0 to |ops|
        invariant Valid() && fresh(Repr - old(Repr))
        invariant entries == Run(old(entries), ops[..i])
      {
        assert ops[..i + 1][..i] == ops[..i];
        DoIs(entries, ops[i]);
        match ops[i] {
          case Add(p, v) => var first := AddHelper(p, v);
          case Rm(p, v) => var r := RmHelper(p, v);
          case RmAll(v) => var calls := RmAll(v, true);
        }
      }
      assert ops[..|ops|] == ops;
    }
  }
}
