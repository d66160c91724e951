/** The routing table and longest-prefix lookup (wnr-dnet/src/route.rs). */
module Routes {
  import opened Bits
  import opened Bytes
  import opened Addresses

  datatype RouteEntry = RouteEntry(dst: Addr, gw: Addr)

  function NetContains(net: Addr, addr: Addr): bool {
    if net.addrType != addr.addrType || net.addrType == ADDR_TYPE_NONE then false
    else Network(net).data == Network(addr.(addrBits := net.addrBits)).data
  }

  // ----- Containment is an interval -----

  /** For equal families, membership in a network is membership in its number interval. */
  lemma NetContainsInterval(net: Addr, addr: Addr)
    ensures NetContains(net, addr) <==>
            && net.addrType == addr.addrType != ADDR_TYPE_NONE
            && Value(Network(net).data) <= Value(addr.data) <= Value(BroadcastOf(net).data)
  {
    var other := addr.(addrBits := net.addrBits);
    var v, w, m := Value(net.data), Value(addr.data), HostRange(net.addrBits);
    SubnetValues(net);
    SubnetValues(other);
    SameBlock(v, w, m);
    if Value(Network(net).data) == Value(Network(other).data) {
      ValueInjective(Network(net).data, Network(other).data);
    }
  }

  lemma CoarserBlock(v: nat, w: nat, m: nat, f: nat)
    requires m > 0 && f > 0
    requires v / m == w / m
    ensures f * m > 0 && v / (f * m) == w / (f * m)
  {
    var q := v / m;
    MulStep(f, 0, m);
    BlockOf(v, q, m, f);
    BlockOf(w, q, m, f);
  }

  lemma BlockOf(v: nat, q: nat, m: nat, f: nat)
    requires m > 0 && f > 0 && f * m > 0 && q == v / m
    ensures v / (f * m) == q / f
  {
    var r, p, t := v % m, q / f, q % f;
    assert v == q * m + r;
    assert q == p * f + t;
    DistributeLeft(p * f, t, m);
    MulAssoc(p, f, m);
    if t < f - 1 {
      MulStep(f - 1, t, m);
    }
    DistributeLeft(f - 1, 1, m);
    assert t * m + r < f * m;
    ModUnique(v, f * m, p, t * m + r);
  }

  lemma SameQuotient(v: nat, w: nat, m: nat)
    requires m > 0
    ensures v - v % m == w - w % m <==> v / m == w / m
  {
    assert v == (v / m) * m + v % m && w == (w / m) * m + w % m;
    if v - v % m == w - w % m {
      SameProduct(v / m, w / m, m);
    }
  }

  lemma NetContainsQuotient(net: Addr, addr: Addr)
    ensures NetContains(net, addr) <==>
            && net.addrType == addr.addrType != ADDR_TYPE_NONE
            && Value(net.data) / HostRange(net.addrBits) == Value(addr.data) / HostRange(net.addrBits)
  {
    SubnetValues(net);
    SubnetValues(addr.(addrBits := net.addrBits));
    SameQuotient(Value(net.data), Value(addr.data), HostRange(net.addrBits));
    if Value(Network(net).data) == Value(Network(addr.(addrBits := net.addrBits)).data) {
      ValueInjective(Network(net).data, Network(addr.(addrBits := net.addrBits)).data);
    }
  }

  /** Networks that contain a common address nest: the longer prefix lies inside the shorter one. */
  lemma MatchingNetworksNest(outer: Addr, inner: Addr, shared: Addr, a: Addr)
    requires NetContains(outer, shared) && NetContains(inner, shared)
    requires EffectiveBits(outer.addrBits) <= EffectiveBits(inner.addrBits)
    requires NetContains(inner, a)
    ensures NetContains(outer, a)
  {
    var extra := EffectiveBits(inner.addrBits) - EffectiveBits(outer.addrBits);
    Pow2Add(extra, 128 - EffectiveBits(inner.addrBits));
    NetContainsQuotient(outer, shared);
    NetContainsQuotient(inner, shared);
    NetContainsQuotient(inner, a);
    NetContainsQuotient(outer, a);
    CoarserBlock(Value(shared.data), Value(a.data), HostRange(inner.addrBits), Pow2(extra));
  }

  // ----- The table as a list of entries -----

  function AddEntry(entries: seq<RouteEntry>, entry: RouteEntry): seq<RouteEntry> {
    if entries == [] then [entry]
    else if entries[0].dst == entry.dst then [entries[0].(gw := entry.gw)] + entries[1..]
    else [entries[0]] + AddEntry(entries[1..], entry)
  }

  function DeleteEntries(entries: seq<RouteEntry>, dst: Addr): seq<RouteEntry> {
    if entries == [] then []
    else if entries[0].dst == dst then DeleteEntries(entries[1..], dst)
    else [entries[0]] + DeleteEntries(entries[1..], dst)
  }

  predicate Matches(e: RouteEntry, dst: Addr) {
    dst.addrType == e.dst.addrType && NetContains(e.dst, dst)
  }

  /** The last of the matching entries with the most prefix bits (`Iterator::max_by_key`). */
  function Best(entries: seq<RouteEntry>, dst: Addr): Option<RouteEntry> {
    if entries == [] then None
    else
      var e, b := entries[|entries| - 1], Best(entries[..|entries| - 1], dst);
      if Matches(e, dst) && (b.None? || b.value.dst.addrBits <= e.dst.addrBits) then Some(e) else b
  }

  class RouteTable {
    var entries: seq<RouteEntry>

    ghost predicate Valid()
      reads this
    {
      DistinctKeys(entries)
    }

    /** The table as a map from destination to gateway. */
    ghost function Contents(): map<Addr, Addr>
      reads this
    {
      MapOf(entries)
    }

    constructor ()
      ensures Valid() && entries == [] && Contents() == map[]
    {
      entries := [];
    }

    method Add(entry: RouteEntry)
      requires Valid()
      modifies this
      ensures Valid()
      ensures entries == AddEntry(old(entries), entry)
      ensures Contents() == old(Contents())[entry.dst := entry.gw]
    {
      AddRefinesMap(entries, entry);
      var i := 0;
      while i < |entries|
        invariant 0 <= i <= |entries| && entries == old(entries)
        invariant forall j | 0 <= j < i :: entries[j].dst != entry.dst
      {
        if entries[i].dst == entry.dst {
          AddReplaces(entries, entry, i);
          entries := entries[i := entries[i].(gw := entry.gw)];
          return;
        }
        i := i + 1;
      }
      AddAppends(entries, entry);
      entries := entries + [entry];
    }

    method AddDev(entry: RouteEntry)
      requires Valid()
      modifies this
      ensures Valid()
      ensures entries == AddEntry(old(entries), entry.(dst := Network(entry.dst)))
      ensures Contents() == old(Contents())[Network(entry.dst) := entry.gw]
    {
      var net := ComputeNetwork(entry.dst);
      Add(entry.(dst := net));
    }

    method Delete(dst: Addr)
      requires Valid()
      modifies this
      ensures Valid()
      ensures entries == DeleteEntries(old(entries), dst)
      ensures Contents() == old(Contents()) - {dst}
    {
      DeleteRefinesMap(entries, dst);
      var kept: seq<RouteEntry> := [];
      for i := 0 to |entries|
        invariant entries == old(entries)
        invariant kept + DeleteEntries(entries[i..], dst) == DeleteEntries(old(entries), dst)
      {
        if entries[i].dst != dst {
          kept := kept + [entries[i]];
        }
      }
      assert kept == DeleteEntries(old(entries), dst);
      entries := kept;
    }

    method Get(dst: Addr) returns (best: Option<RouteEntry>)
      ensures best == Best(entries, dst)
    {
      best := None;
      for i := 0 to |entries|
        invariant best == Best(entries[..i], dst)
      {
        var e := entries[i];
        assert entries[..i + 1][..i] == entries[..i];
        if dst.addrType == e.dst.addrType && NetContains(e.dst, dst) {
          if best.None? || best.value.dst.addrBits <= e.dst.addrBits {
            best := Some(e);
          }
        }
      }
      assert entries[..|entries|] == entries;
    }
  }

  // ----- The table refines a map -----

  predicate DistinctKeys(entries: seq<RouteEntry>) {
    forall i, j | 0 <= i < j < |entries| :: entries[i].dst != entries[j].dst
  }

  function MapOf(entries: seq<RouteEntry>): map<Addr, Addr> {
    if entries == [] then map[] else MapOf(entries[1..])[entries[0].dst := entries[0].gw]
  }

  lemma {:induction false} MapOfHas(entries: seq<RouteEntry>, dst: Addr)
    ensures dst in MapOf(entries) <==> exists i :: 0 <= i < |entries| && entries[i].dst == dst
  {
    if entries != [] {
      MapOfHas(entries[1..], dst);
      if dst in MapOf(entries[1..]) {
        var i :| 0 <= i < |entries| - 1 && entries[1..][i].dst == dst;
        assert entries[i + 1].dst == dst;
      }
      if i :| 0 < i < |entries| && entries[i].dst == dst {
        assert entries[1..][i - 1].dst == dst;
      }
    }
  }

  lemma {:induction false} MapOfAt(entries: seq<RouteEntry>, i: nat)
    requires DistinctKeys(entries) && i < |entries|
    ensures entries[i].dst in MapOf(entries) && MapOf(entries)[entries[i].dst] == entries[i].gw
  {
    if i > 0 {
      MapOfAt(entries[1..], i - 1);
      assert entries[0].dst != entries[i].dst;
    }
  }

  /** The entries of a table are exactly the bindings of its map. */
  lemma EntriesAreBindings(entries: seq<RouteEntry>, e: RouteEntry)
    requires DistinctKeys(entries)
    ensures e in entries <==> e.dst in MapOf(entries) && MapOf(entries)[e.dst] == e.gw
  {
    MapOfHas(entries, e.dst);
    if e in entries {
      var i :| 0 <= i < |entries| && entries[i] == e;
      MapOfAt(entries, i);
    }
    if e.dst in MapOf(entries) {
      var i :| 0 <= i < |entries| && entries[i].dst == e.dst;
      MapOfAt(entries, i);
    }
  }

  lemma {:induction false} AddReplaces(entries: seq<RouteEntry>, entry: RouteEntry, i: nat)
    requires i < |entries| && entries[i].dst == entry.dst
    requires forall j | 0 <= j < i :: entries[j].dst != entry.dst
    ensures AddEntry(entries, entry) == entries[i := entries[i].(gw := entry.gw)]
  {
    if i > 0 {
      AddReplaces(entries[1..], entry, i - 1);
    }
  }

  lemma {:induction false} AddAppends(entries: seq<RouteEntry>, entry: RouteEntry)
    requires forall j | 0 <= j < |entries| :: entries[j].dst != entry.dst
    ensures AddEntry(entries, entry) == entries + [entry]
  {
    if entries != [] {
      AddAppends(entries[1..], entry);
    }
  }

  lemma {:induction false} AddKeys(entries: seq<RouteEntry>, entry: RouteEntry, k: nat)
    requires k < |AddEntry(entries, entry)|
    ensures var d := AddEntry(entries, entry)[k].dst;
            d == entry.dst || exists i :: 0 <= i < |entries| && entries[i].dst == d
  {
    if entries != [] && k > 0 {
      if entries[0].dst == entry.dst {
        assert AddEntry(entries, entry)[k] == entries[k];
      } else {
        AddKeys(entries[1..], entry, k - 1);
        var d := AddEntry(entries, entry)[k].dst;
        if i :| 0 <= i < |entries| - 1 && entries[1..][i].dst == d {
          assert entries[i + 1].dst == d;
        }
      }
    }
  }

  /** `add` keeps one entry per destination and binds the new one. */
  lemma {:induction false} AddRefinesMap(entries: seq<RouteEntry>, entry: RouteEntry)
    requires DistinctKeys(entries)
    ensures DistinctKeys(AddEntry(entries, entry))
    ensures MapOf(AddEntry(entries, entry)) == MapOf(entries)[entry.dst := entry.gw]
  {
    if entries != [] {
      var first, rest := entries[0], entries[1..];
      AddRefinesMap(rest, entry);
      if first.dst != entry.dst {
        var added := AddEntry(rest, entry);
        forall k | 0 <= k < |added|
          ensures added[k].dst != first.dst
        {
          AddKeys(rest, entry, k);
        }
        assert AddEntry(entries, entry)[1..] == added;
      } else {
        assert AddEntry(entries, entry)[1..] == rest;
      }
    }
  }

  lemma {:induction false} DeleteKeeps(entries: seq<RouteEntry>, dst: Addr, e: RouteEntry)
    ensures e in DeleteEntries(entries, dst) <==> e in entries && e.dst != dst
  {
    if entries != [] {
      DeleteKeeps(entries[1..], dst, e);
      assert e in entries <==> e == entries[0] || e in entries[1..];
    }
  }

  /** `delete` unbinds the destination and nothing else. */
  lemma {:induction false} DeleteRefinesMap(entries: seq<RouteEntry>, dst: Addr)
    requires DistinctKeys(entries)
    ensures DistinctKeys(DeleteEntries(entries, dst))
    ensures MapOf(DeleteEntries(entries, dst)) == MapOf(entries) - {dst}
  {
    if entries != [] {
      var first, rest := entries[0], entries[1..];
      DeleteRefinesMap(rest, dst);
      var kept := DeleteEntries(rest, dst);
      if first.dst != dst {
        forall k | 0 <= k < |kept|
          ensures kept[k].dst != first.dst
        {
          DeleteKeeps(rest, dst, kept[k]);
        }
        assert DeleteEntries(entries, dst)[1..] == kept;
      } else {
        MapOfHas(rest, dst);
        assert dst !in MapOf(rest);
      }
    }
  }

  // ----- Lookup is longest-prefix match -----

  /** `e` is a matching entry that no matching entry beats. */
  ghost predicate IsLongest(entries: seq<RouteEntry>, dst: Addr, e: RouteEntry) {
    && e in entries
    && Matches(e, dst)
    && forall f | f in entries && Matches(f, dst) :: f.dst.addrBits <= e.dst.addrBits
  }

  /** `get` finds a longest match whenever anything matches. */
  lemma {:induction false} BestIsLongest(entries: seq<RouteEntry>, dst: Addr)
    ensures Best(entries, dst).None? <==> forall f | f in entries :: !Matches(f, dst)
    ensures Best(entries, dst).Some? ==> IsLongest(entries, dst, Best(entries, dst).value)
  {
    if entries != [] {
      var n := |entries| - 1;
      BestIsLongest(entries[..n], dst);
      assert entries == entries[..n] + [entries[n]];
    }
  }

  /** Two different stored networks of one length never match the same address. */
  lemma NoTies(e: RouteEntry, f: RouteEntry, dst: Addr)
    requires e.dst == Network(e.dst) && f.dst == Network(f.dst)
    requires Matches(e, dst) && Matches(f, dst)
    requires e.dst.addrBits == f.dst.addrBits
    ensures e.dst == f.dst
  {
  }

  /** Two keys of the map both match as the longest prefix. */
  ghost predicate Ambiguous(m: map<Addr, Addr>, dst: Addr) {
    exists a, b | a in m && b in m && a != b ::
      && a.addrBits == b.addrBits
      && NetContains(a, dst) && NetContains(b, dst)
      && forall c | c in m && NetContains(c, dst) :: c.addrBits <= a.addrBits
  }

  /** Every table with this content answers the lookup alike. */
  ghost predicate Determined(m: map<Addr, Addr>, dst: Addr) {
    forall s, t | DistinctKeys(s) && DistinctKeys(t) && MapOf(s) == m && MapOf(t) == m ::
      Best(s, dst) == Best(t, dst)
  }

  lemma LongestAgree(s: seq<RouteEntry>, t: seq<RouteEntry>, dst: Addr)
    requires DistinctKeys(s) && DistinctKeys(t) && MapOf(s) == MapOf(t)
    requires !Ambiguous(MapOf(s), dst)
    ensures Best(s, dst) == Best(t, dst)
  {
    BestIsLongest(s, dst);
    BestIsLongest(t, dst);
    forall e: RouteEntry
      ensures e in s <==> e in t
    {
      EntriesAreBindings(s, e);
      EntriesAreBindings(t, e);
    }
    if Best(s, dst).Some? {
      var e, f := Best(s, dst).value, Best(t, dst).value;
      EntriesAreBindings(s, e);
      EntriesAreBindings(s, f);
      if e.dst != f.dst {
        forall c | c in MapOf(s) && NetContains(c, dst)
          ensures c.addrBits <= e.dst.addrBits
        {
          EntriesAreBindings(s, RouteEntry(c, MapOf(s)[c]));
        }
      }
    }
  }

  /** Some table holding exactly the bindings of `m`. */
  lemma TableFor(m: map<Addr, Addr>) returns (s: seq<RouteEntry>)
    ensures DistinctKeys(s) && MapOf(s) == m
    decreases |m|
  {
    if m == map[] {
      s := [];
    } else {
      var a :| a in m;
      var rest := TableFor(m - {a});
      s := [RouteEntry(a, m[a])] + rest;
      forall i | 0 <= i < |rest|
        ensures rest[i].dst != a
      {
        MapOfHas(rest, rest[i].dst);
      }
      assert s[1..] == rest;
    }
  }

  /** A table whose last entry is `a`. */
  lemma TableEndingIn(m: map<Addr, Addr>, a: Addr) returns (s: seq<RouteEntry>)
    requires a in m
    ensures DistinctKeys(s) && MapOf(s) == m
    ensures s != [] && s[|s| - 1].dst == a
  {
    var rest := TableFor(m - {a});
    var entry := RouteEntry(a, m[a]);
    forall i | 0 <= i < |rest|
      ensures rest[i].dst != a
    {
      MapOfHas(rest, rest[i].dst);
    }
    AddAppends(rest, entry);
    AddRefinesMap(rest, entry);
    s := rest + [entry];
  }

  lemma LastLongestWins(s: seq<RouteEntry>, dst: Addr)
    requires s != [] && IsLongest(s, dst, s[|s| - 1])
    ensures Best(s, dst) == Some(s[|s| - 1])
  {
    var n := |s| - 1;
    BestIsLongest(s[..n], dst);
    if Best(s[..n], dst).Some? {
      assert Best(s[..n], dst).value in s;
    }
  }

  /** Lookup is independent of the table's history exactly when no two longest matches tie. */
  lemma DeterminedExactly(m: map<Addr, Addr>, dst: Addr)
    ensures Determined(m, dst) <==> !Ambiguous(m, dst)
  {
    if Ambiguous(m, dst) {
      var a, b :| a in m && b in m && a != b
                  && a.addrBits == b.addrBits
                  && NetContains(a, dst) && NetContains(b, dst)
                  && forall c | c in m && NetContains(c, dst) :: c.addrBits <= a.addrBits;
      var s := TableEndingIn(m, a);
      var t := TableEndingIn(m, b);
      forall e: RouteEntry
        ensures e in s ==> e.dst in m
        ensures e in t ==> e.dst in m
      {
        EntriesAreBindings(s, e);
        EntriesAreBindings(t, e);
      }
      LastLongestWins(s, dst);
      LastLongestWins(t, dst);
    } else {
      forall s, t | DistinctKeys(s) && DistinctKeys(t) && MapOf(s) == m && MapOf(t) == m
        ensures Best(s, dst) == Best(t, dst)
      {
        LongestAgree(s, t, dst);
      }
    }
  }

  // ----- Whole histories -----

  datatype RouteOp = OpAdd(entry: RouteEntry) | OpAddDev(entry: RouteEntry) | OpDelete(dst: Addr)

  function Apply(entries: seq<RouteEntry>, op: RouteOp): seq<RouteEntry> {
    match op
    case OpAdd(e) => AddEntry(entries, e)
    case OpAddDev(e) => AddEntry(entries, e.(dst := Network(e.dst)))
    case OpDelete(dst) => DeleteEntries(entries, dst)
  }

  /** The table after a history of operations on the empty table. */
  function History(ops: seq<RouteOp>): seq<RouteEntry> {
    if ops == [] then [] else Apply(History(ops[..|ops| - 1]), ops[|ops| - 1])
  }

  /** The same history on a finite map. */
  function MapHistory(ops: seq<RouteOp>): map<Addr, Addr> {
    if ops == [] then map[]
    else
      var m := MapHistory(ops[..|ops| - 1]);
      match ops[|ops| - 1]
      case OpAdd(e) => m[e.dst := e.gw]
      case OpAddDev(e) => m[Network(e.dst) := e.gw]
      case OpDelete(dst) => m - {dst}
  }

  predicate DeviceOnly(ops: seq<RouteOp>) { forall i | 0 <= i < |ops| :: !ops[i].OpAdd? }

  lemma {:induction false} HistoryRefinesMap(ops: seq<RouteOp>)
    ensures DistinctKeys(History(ops)) && MapOf(History(ops)) == MapHistory(ops)
  {
    if ops != [] {
      var n := |ops| - 1;
      HistoryRefinesMap(ops[..n]);
      var before := History(ops[..n]);
      match ops[n]
      case OpAdd(e) => AddRefinesMap(before, e);
      case OpAddDev(e) => AddRefinesMap(before, e.(dst := Network(e.dst)));
      case OpDelete(dst) => DeleteRefinesMap(before, dst);
    }
  }

  lemma {:induction false} HistoryNormalized(ops: seq<RouteOp>, e: RouteEntry)
    requires DeviceOnly(ops) && e in History(ops)
    ensures e.dst == Network(e.dst)
  {
    if ops != [] {
      var n := |ops| - 1;
      var before := History(ops[..n]);
      match ops[n]
      case OpAddDev(added) =>
        NetworkIdempotent(added.dst);
        var k :| 0 <= k < |History(ops)| && History(ops)[k] == e;
        AddKeys(before, added.(dst := Network(added.dst)), k);
        if i :| 0 <= i < |before| && before[i].dst == e.dst {
          HistoryNormalized(ops[..n], before[i]);
        }
      case OpDelete(dst) =>
        DeleteKeeps(before, dst, e);
        HistoryNormalized(ops[..n], e);
    }
  }

  /**
   * Longest-prefix match over any history of `add_dev` and `delete`: `get` answers with the unique
   * longest matching network of the map, so only the bindings matter, not the order they came in.
   * "Longest" counts the stored bits. The answer is also the smallest network, inside every other one
   * that matches, if and only if no matching key has more than 128 bits or all are in effect empty.
   */
  lemma DeviceRoutesLongestPrefix(ops: seq<RouteOp>, dst: Addr)
    requires DeviceOnly(ops)
    ensures var m, best := MapHistory(ops), Best(History(ops), dst);
            && (best.None? <==> forall c | c in m :: !NetContains(c, dst))
            && (best.Some? ==>
                  && best.value.dst in m && m[best.value.dst] == best.value.gw
                  && NetContains(best.value.dst, dst)
                  && forall c | c in m && NetContains(c, dst) && c != best.value.dst ::
                       c.addrBits < best.value.dst.addrBits)
    ensures var m, best := MapHistory(ops), Best(History(ops), dst);
            best.Some? ==> (IsSmallest(m, dst, best.value.dst) <==> NoneOverlong(m, dst) || AllEmpty(m, dst))
    ensures Determined(MapHistory(ops), dst)
  {
    var s, m := History(ops), MapHistory(ops);
    HistoryRefinesMap(ops);
    BestIsLongest(s, dst);
    forall c | c in m
      ensures RouteEntry(c, m[c]) in s && c == Network(c)
    {
      EntriesAreBindings(s, RouteEntry(c, m[c]));
      HistoryNormalized(ops, RouteEntry(c, m[c]));
    }
    forall e | e in s
      ensures e.dst in m && m[e.dst] == e.gw
    {
      EntriesAreBindings(s, e);
    }
    forall a, b | a in m && b in m && NetContains(a, dst) && NetContains(b, dst) && a.addrBits == b.addrBits
      ensures a == b
    {
      NoTies(RouteEntry(a, m[a]), RouteEntry(b, m[b]), dst);
    }
    DeterminedExactly(m, dst);
    if Best(s, dst).None? {
      forall c | c in m
        ensures !NetContains(c, dst)
      {
        assert !Matches(RouteEntry(c, m[c]), dst);
      }
    } else {
      var best := Best(s, dst).value;
      forall c | c in m && NetContains(c, dst) && c != best.dst
        ensures c.addrBits < best.dst.addrBits
      {
        assert Matches(RouteEntry(c, m[c]), dst);
      }
      hide NetContains;
      SmallestExactly(m, dst, best.dst);
    }
  }

  /** The network of `best` lies inside every network of the map that matches `dst`. */
  ghost predicate IsSmallest(m: map<Addr, Addr>, dst: Addr, best: Addr) {
    forall c, a | c in m && NetContains(c, dst) && NetContains(best, a) :: NetContains(c, a)
  }

  ghost predicate NoneOverlong(m: map<Addr, Addr>, dst: Addr) {
    forall c | c in m && NetContains(c, dst) :: c.addrBits <= 128
  }

  ghost predicate AllEmpty(m: map<Addr, Addr>, dst: Addr) {
    forall c | c in m && NetContains(c, dst) :: EffectiveBits(c.addrBits) == 0
  }

  /** When the longest matching prefix is the smallest matching network. */
  lemma SmallestExactly(m: map<Addr, Addr>, dst: Addr, best: Addr)
    requires best in m && NetContains(best, dst)
    requires forall c | c in m && NetContains(c, dst) :: c.addrBits <= best.addrBits
    ensures IsSmallest(m, dst, best) <==> NoneOverlong(m, dst) || AllEmpty(m, dst)
  {
    FamilyOf(best, dst);
    hide NetContains;
    if NoneOverlong(m, dst) || AllEmpty(m, dst) {
      forall c, a | c in m && NetContains(c, dst) && NetContains(best, a)
        ensures NetContains(c, a)
      {
        MatchingNetworksNest(c, best, dst, a);
      }
    } else {
      var wide :| wide in m && NetContains(wide, dst) && wide.addrBits > 128;
      var c :| c in m && NetContains(c, dst) && EffectiveBits(c.addrBits) > 0;
      var a := FlipTop(dst);
      OverlongMatches(best, a);
      FlippedOutside(c, dst);
      assert NetContains(best, a) && !NetContains(c, a);
    }
  }

  lemma FamilyOf(net: Addr, dst: Addr)
    requires NetContains(net, dst)
    ensures net.addrType == dst.addrType != ADDR_TYPE_NONE
  {
  }

  /** The address that differs from `a` in its first bit only. */
  function FlipTop(a: Addr): Addr {
    a.(data := a.data[0 := if a.data[0] >= 128 then a.data[0] - 128 else a.data[0] + 128])
  }

  /** No network of at least one bit holds both an address and its flip. */
  lemma FlippedOutside(net: Addr, dst: Addr)
    requires NetContains(net, dst) && EffectiveBits(net.addrBits) > 0
    ensures !NetContains(net, FlipTop(dst))
  {
    NetContainsQuotient(net, dst);
    NetContainsQuotient(net, FlipTop(dst));
    FlippedValue(dst);
    Pow2Monotone(128 - EffectiveBits(net.addrBits), 127);
    hide NetContains, Pow2, Value;
    var v, w := Value(dst.data), Value(FlipTop(dst).data);
    if v == w + Pow2(127) {
      FarApart(v, w, HostRange(net.addrBits));
    } else {
      FarApart(w, v, HostRange(net.addrBits));
    }
  }

  lemma FarApart(v: nat, w: nat, h: nat)
    requires h > 0 && v >= w + h
    ensures v / h != w / h
  {
    assert w == (w / h) * h + w % h && v == (v / h) * h + v % h;
  }

  lemma FlippedValue(a: Addr)
    ensures var v, w := Value(a.data), Value(FlipTop(a).data); v == w + Pow2(127) || w == v + Pow2(127)
  {
    if a.data[0] >= 128 {
      TopBitWeight(a.data, FlipTop(a).data);
    } else {
      TopBitWeight(FlipTop(a).data, a.data);
    }
  }

  /**
   * Beyond 128 bits it does not: such a route is the empty prefix, yet its nominal length hides
   * every shorter route of its family, whatever that one matches.
   */
  lemma OverlongRouteHidesAll(ops: seq<RouteOp>, wide: RouteEntry, dst: Addr)
    requires DeviceOnly(ops) && wide.dst.addrBits > 128 && wide.dst.addrType == dst.addrType != ADDR_TYPE_NONE
    requires forall c | c in MapHistory(ops) :: c.addrBits < wide.dst.addrBits
    ensures Best(History(ops + [OpAddDev(wide)]), dst) == Some(RouteEntry(Network(wide.dst), wide.gw))
  {
    var all := ops + [OpAddDev(wide)];
    assert all[..|ops|] == ops;
    DeviceRoutesLongestPrefix(all, dst);
    HistoryRefinesMap(all);
    OverlongMatches(Network(wide.dst), dst);
  }

  /** Every address of its family lies in a network of more than 128 bits. */
  lemma OverlongMatches(net: Addr, addr: Addr)
    requires net.addrBits > 128 && net.addrType == addr.addrType != ADDR_TYPE_NONE
    ensures NetContains(net, addr)
  {
    OverlongPrefix(net);
    ValueBound(addr.data);
    NetContainsInterval(net, addr);
  }

  /** Histories that leave the same bindings answer every lookup alike. */
  lemma HistoryIndependence(first: seq<RouteOp>, second: seq<RouteOp>, dst: Addr)
    requires DeviceOnly(first) && MapHistory(first) == MapHistory(second)
    ensures Best(History(first), dst) == Best(History(second), dst)
  {
    DeviceRoutesLongestPrefix(first, dst);
    HistoryRefinesMap(first);
    HistoryRefinesMap(second);
  }

  /** Plain `add` keeps host bits, so two spellings of one network tie and the later one wins. */
  lemma PlainAddTies(gw1: Addr, gw2: Addr)
    ensures var a := Addr(2, 24, [10, 0, 0, 5] + seq(12, _ => 0));
            var b := Addr(2, 24, [10, 0, 0, 9] + seq(12, _ => 0));
            var ops := [OpAdd(RouteEntry(a, gw1)), OpAdd(RouteEntry(b, gw2))];
            Ambiguous(MapHistory(ops), a) && Best(History(ops), a) == Some(RouteEntry(b, gw2))
  {
    var a := Addr(2, 24, [10, 0, 0, 5] + seq(12, _ => 0));
    var b := Addr(2, 24, [10, 0, 0, 9] + seq(12, _ => 0));
    var ops := [OpAdd(RouteEntry(a, gw1)), OpAdd(RouteEntry(b, gw2))];
    assert ops[..1] == [OpAdd(RouteEntry(a, gw1))];
    assert ops[..1][..0] == [];
    assert MapHistory(ops[..1]) == map[a := gw1];
    assert MapHistory(ops) == map[a := gw1][b := gw2];
    assert a.data[3] != b.data[3];
    SameSlash24(a.data, b.data);
    assert NetContains(a, a) && NetContains(b, a);
    var s := [RouteEntry(a, gw1), RouteEntry(b, gw2)];
    assert History(ops[..1]) == [RouteEntry(a, gw1)];
    AddAppends([RouteEntry(a, gw1)], RouteEntry(b, gw2));
    assert History(ops) == s;
    hide NetContains;
    LastLongestWins(s, a);
  }

  lemma SameSlash24(a: Octets, b: Octets)
    requires forall i | 0 <= i < 16 && i != 3 :: a[i] == b[i]
    ensures NetworkData(a, 24) == NetworkData(b, 24)
  {
    Pow2Small();
    MaskedByte(a[3], 0);
    MaskedByte(b[3], 0);
    hide Mask, MaskByte, And8;
    forall i | 0 <= i < 16
      ensures NetworkData(a, 24)[i] == NetworkData(b, 24)[i]
    {
    }
  }
}
