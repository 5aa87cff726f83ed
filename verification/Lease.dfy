/** The shared lease table (src/lease.rs): grants per file, broken by
    conflicting access, released on CLOSE and on disconnect.
 */
module Lease {
  import opened Wire

  type FileKey = (nat, nat)  // share index, inode
  type LeaseKey = bytes

  /** A granted lease and the connection slot that holds it. `born` counts how
      often that slot had been recycled when the lease was granted; it identifies
      the holder for specification only, routing uses `connGen`. */
  datatype Grant = Grant(
    leaseKey: LeaseKey, state: nat, epoch: nat, sessionId: nat,
    wid: nat, connIdx: nat, connGen: nat, born: nat)

  datatype BreakMsg = BreakMsg(
    wid: nat, connIdx: nat, connGen: nat, leaseKey: LeaseKey,
    curState: nat, newState: nat, epoch: nat, sessionId: nat, born: nat)

  type Table = map<FileKey, seq<Grant>>

  function BreakOf(g: Grant): BreakMsg {
    BreakMsg(g.wid, g.connIdx, g.connGen, g.leaseKey, g.state, 0, (g.epoch + 1) % 0x1_0000, g.sessionId, g.born)
  }

  // -------------------------------------------------- lists of grants

  predicate DistinctKeys(v: seq<Grant>) {
    forall i, j :: 0 <= i < j < |v| ==> v[i].leaseKey != v[j].leaseKey
  }

  /** The grant held under `lk`, if any. */
  function Find(v: seq<Grant>, lk: LeaseKey): (r: Option<Grant>)
    ensures r.Some? ==> r.value in v && r.value.leaseKey == lk
    ensures r.None? ==> forall g :: g in v ==> g.leaseKey != lk
  {
    if v == [] then None
    else if v[|v| - 1].leaseKey == lk then Some(v[|v| - 1])
    else Find(v[..|v| - 1], lk)
  }

  lemma {:induction false} FindOnly(v: seq<Grant>, g: Grant)
    requires DistinctKeys(v) && g in v
    ensures Find(v, g.leaseKey) == Some(g)
  {
    if v[|v| - 1] != g {
      var i :| 0 <= i < |v| && v[i] == g;
      assert v[..|v| - 1][i] == g;
      FindOnly(v[..|v| - 1], g);
    }
  }

  /** Which grants an operation leaves in place. */
  datatype Rule =
    | Exempting(writer: Option<LeaseKey>)  // a conflicting access spares the actor's own key
    | Releasing(leaseKey: LeaseKey)        // CLOSE releases one key
    | Leaving(wid: nat, idx: nat, gen: nat)  // a connection is gone
  {
    predicate Keeps(g: Grant) {
      match this
      case Exempting(w) => w == Some(g.leaseKey)
      case Releasing(lk) => g.leaseKey != lk
      case Leaving(w, i, n) => !(g.wid == w && g.connIdx == i && g.connGen == n)
    }
  }

  /** The grants a rule keeps, and the ones it drops, in order. */
  function Kept(v: seq<Grant>, rule: Rule): (r: seq<Grant>)
    ensures forall g :: g in r <==> g in v && rule.Keeps(g)
  {
    if v == [] then []
    else
      var r := Kept(v[..|v| - 1], rule);
      if rule.Keeps(v[|v| - 1]) then r + [v[|v| - 1]] else r
  }

  function Dropped(v: seq<Grant>, rule: Rule): (r: seq<Grant>)
    ensures forall g :: g in r <==> g in v && !rule.Keeps(g)
  {
    if v == [] then []
    else
      var r := Dropped(v[..|v| - 1], rule);
      if rule.Keeps(v[|v| - 1]) then r else r + [v[|v| - 1]]
  }

  lemma {:induction false} KeptDistinct(v: seq<Grant>, rule: Rule)
    requires DistinctKeys(v)
    ensures DistinctKeys(Kept(v, rule)) && DistinctKeys(Dropped(v, rule))
    ensures multiset(Kept(v, rule)) + multiset(Dropped(v, rule)) == multiset(v)
  {
    if v != [] {
      var u, last := v[..|v| - 1], v[|v| - 1];
      assert v == u + [last];
      KeptDistinct(u, rule);
      forall g | g in u ensures g.leaseKey != last.leaseKey {
        var i :| 0 <= i < |u| && u[i] == g;
      }
    }
  }

  function Messages(v: seq<Grant>): (r: seq<BreakMsg>)
    ensures |r| == |v| && forall i :: 0 <= i < |v| ==> r[i] == BreakOf(v[i])
  {
    seq(|v|, i requires 0 <= i < |v| => BreakOf(v[i]))
  }

  // ------------------------------------------------------- the table

  /** At most one grant per file and lease key, and no empty lists. */
  predicate WellFormed(t: Table) {
    forall k :: k in t ==> t[k] != [] && DistinctKeys(t[k])
  }

  function Grants(t: Table, k: FileKey): seq<Grant> {
    if k in t then t[k] else []
  }

  /** The grant held on a file under a lease key. */
  function Holder(t: Table, k: FileKey, lk: LeaseKey): Option<Grant> {
    Find(Grants(t, k), lk)
  }

  /** What is left of a grant when a rule is applied to it. */
  function Surviving(h: Option<Grant>, rule: Rule): Option<Grant> {
    if h.Some? && rule.Keeps(h.value) then h else None
  }

  /** Filtering a list filters the grant under each key. */
  lemma FindKept(v: seq<Grant>, rule: Rule, lk: LeaseKey)
    requires DistinctKeys(v)
    ensures Find(Kept(v, rule), lk) == Surviving(Find(v, lk), rule)
  {
    KeptDistinct(v, rule);
    var h := Find(v, lk);
    if h.Some? && rule.Keeps(h.value) {
      FindOnly(Kept(v, rule), h.value);
    } else if Find(Kept(v, rule), lk).Some? {
      FindOnly(v, Find(Kept(v, rule), lk).value);
    }
  }

  /** A message stands for the dropped grant it was made from, and for no other. */
  lemma MessagesMatch(v: seq<Grant>, rule: Rule, lk: LeaseKey)
    requires DistinctKeys(v)
    ensures var ms, h := Messages(Dropped(v, rule)), Find(v, lk);
            && (h.Some? && !rule.Keeps(h.value) ==> BreakOf(h.value) in ms)
            && (forall m :: m in ms && m.leaseKey == lk ==> h.Some? && !rule.Keeps(h.value) && m == BreakOf(h.value))
            && (forall i, j :: 0 <= i < j < |ms| ==> ms[i].leaseKey != ms[j].leaseKey)
  {
    KeptDistinct(v, rule);
    var d, ms, h := Dropped(v, rule), Messages(Dropped(v, rule)), Find(v, lk);
    if h.Some? && !rule.Keeps(h.value) {
      var i :| 0 <= i < |d| && d[i] == h.value;
      assert ms[i] == BreakOf(h.value);
    }
    forall m | m in ms && m.leaseKey == lk ensures h.Some? && !rule.Keeps(h.value) && m == BreakOf(h.value) {
      var i :| 0 <= i < |ms| && ms[i] == m;
      FindOnly(v, d[i]);
    }
  }

  /** The list for a file stored back, dropping the file when nothing is left. */
  function Store(t: Table, k: FileKey, v: seq<Grant>): (r: Table)
    ensures Grants(r, k) == v && (forall k' :: k' != k ==> Grants(r, k') == Grants(t, k'))
    ensures WellFormed(t) && DistinctKeys(v) ==> WellFormed(r)
  {
    if v == [] then t - {k} else t[k := v]
  }

  /** The first position holding `lk`, or the length. */
  function KeyIndex(v: seq<Grant>, lk: LeaseKey): (i: nat)
    ensures i <= |v| && (i < |v| ==> v[i].leaseKey == lk) && (forall j :: 0 <= j < i ==> v[j].leaseKey != lk)
  {
    if v == [] then 0 else if v[0].leaseKey == lk then 0 else 1 + KeyIndex(v[1..], lk)
  }

  /** One grant replaced in place, or appended. */
  function Put(v: seq<Grant>, g: Grant): (r: seq<Grant>)
    requires DistinctKeys(v)
    ensures r != [] && DistinctKeys(r) && (forall h :: h in r <==> h == g || (h in v && h.leaseKey != g.leaseKey))
  {
    var i := KeyIndex(v, g.leaseKey);
    var r := if i < |v| then v[i := g] else v + [g];
    assert r[i] == g && forall j :: 0 <= j < |v| && j != i ==> r[j] == v[j];
    r
  }

  lemma FindPut(v: seq<Grant>, g: Grant, lk: LeaseKey)
    requires DistinctKeys(v)
    ensures Find(Put(v, g), lk) == if lk == g.leaseKey then Some(g) else Find(v, lk)
  {
    var h := Find(Put(v, g), lk);
    if lk == g.leaseKey {
      FindOnly(Put(v, g), g);
    } else if h.Some? {
      FindOnly(v, h.value);
    }
  }

  /** A rule applied to every file. */
  function Sweep(t: Table, rule: Rule): (r: Table)
    ensures forall k :: Grants(r, k) == Kept(Grants(t, k), rule)
  {
    map k | k in t && Kept(t[k], rule) != [] :: Kept(t[k], rule)
  }

  lemma SweepWellFormed(t: Table, rule: Rule)
    requires WellFormed(t)
    ensures WellFormed(Sweep(t, rule))
  {
    forall k | k in Sweep(t, rule) ensures DistinctKeys(Sweep(t, rule)[k]) {
      KeptDistinct(t[k], rule);
    }
  }

  class LeaseTable {
    var table: Table

    constructor ()
      ensures table == map[]
    {
      table := map[];
    }

    /** Grant or refresh a lease: one per file and key. */
    method GrantLease(key: FileKey, g: Grant)
      requires WellFormed(table)
      modifies this
      ensures WellFormed(table)
      ensures table == Store(old(table), key, Put(Grants(old(table), key), g))
      ensures forall k, lk ::
                Holder(table, k, lk) == if k == key && lk == g.leaseKey then Some(g) else Holder(old(table), k, lk)
    {
      var v := if key in table then table[key] else [];
      var i := 0;
      while i < |v| && v[i].leaseKey != g.leaseKey
        invariant i <= |v| && forall j :: 0 <= j < i ==> v[j].leaseKey != g.leaseKey
      {
        i := i + 1;
      }
      assert i == KeyIndex(v, g.leaseKey);
      if i < |v| {
        v := v[i := g];
      } else {
        v := v + [g];
      }
      forall lk {
        FindPut(Grants(table, key), g, lk);
      }
      table := table[key := v];
    }

    /** Break every lease with a different key: each grant removed yields exactly
        one message, addressed to its holder. */
    method BreakConflicts(key: FileKey, writer: Option<LeaseKey>) returns (breaks: seq<BreakMsg>)
      requires WellFormed(table)
      modifies this
      ensures WellFormed(table)
      ensures table == Store(old(table), key, Kept(Grants(old(table), key), Exempting(writer)))
      ensures breaks == Messages(Dropped(Grants(old(table), key), Exempting(writer)))
      ensures forall k, lk ::
                Holder(table, k, lk) == if k == key && writer != Some(lk) then None else Holder(old(table), k, lk)
      ensures forall g :: g in Grants(table, key) ==> writer == Some(g.leaseKey)
    {
      if key !in table {
        assert table == Store(table, key, []);
        return [];
      }
      var v := table[key];
      var kept;
      kept, breaks := Split(v, writer);
      KeptDistinct(v, Exempting(writer));
      forall lk {
        FindKept(v, Exempting(writer), lk);
      }
      table := if kept == [] then table - {key} else table[key := kept];
    }

    static method Split(v: seq<Grant>, writer: Option<LeaseKey>) returns (kept: seq<Grant>, breaks: seq<BreakMsg>)
      ensures kept == Kept(v, Exempting(writer))
      ensures breaks == Messages(Dropped(v, Exempting(writer)))
    {
      kept, breaks := [], [];
      for i := 0 to |v|
        invariant kept == Kept(v[..i], Exempting(writer))
        invariant breaks == Messages(Dropped(v[..i], Exempting(writer)))
      {
        assert v[..i + 1][..i] == v[..i];
        if writer == Some(v[i].leaseKey) {
          kept := kept + [v[i]];
        } else {
          breaks := breaks + [BreakOf(v[i])];
        }
      }
      assert v[..|v|] == v;
    }

    /** Release one lease, on CLOSE. */
    method Release(key: FileKey, leaseKey: LeaseKey)
      requires WellFormed(table)
      modifies this
      ensures WellFormed(table)
      ensures table == Store(old(table), key, Kept(Grants(old(table), key), Releasing(leaseKey)))
      ensures forall k, lk ::
                Holder(table, k, lk) == if k == key && lk == leaseKey then None else Holder(old(table), k, lk)
    {
      if key !in table {
        assert table == Store(table, key, []);
        return;
      }
      var v := table[key];
      var kept := Retain(v, Releasing(leaseKey));
      KeptDistinct(v, Releasing(leaseKey));
      forall lk {
        FindKept(v, Releasing(leaseKey), lk);
      }
      table := if kept == [] then table - {key} else table[key := kept];
    }

    static method Retain(v: seq<Grant>, rule: Rule) returns (kept: seq<Grant>)
      ensures kept == Kept(v, rule)
    {
      kept := [];
      for i := 0 to |v|
        invariant kept == Kept(v[..i], rule)
      {
        assert v[..i + 1][..i] == v[..i];
        if rule.Keeps(v[i]) {
          kept := kept + [v[i]];
        }
      }
      assert v[..|v|] == v;
    }

    /** Release every lease of a connection: its grants go, all others stay. */
    method ReleaseConn(wid: nat, idx: nat, gen: nat)
      requires WellFormed(table)
      modifies this
      ensures WellFormed(table) && table == Sweep(old(table), Leaving(wid, idx, gen))
      ensures forall k, lk :: Holder(table, k, lk) == Surviving(Holder(old(table), k, lk), Leaving(wid, idx, gen))
    {
      var rule := Leaving(wid, idx, gen);
      var todo, swept: Table := table.Keys, map[];
      while todo != {}
        invariant todo <= old(table).Keys && table == old(table)
        invariant swept == map k | k in old(table) && k !in todo && Kept(old(table)[k], rule) != [] :: Kept(old(table)[k], rule)
        decreases |todo|
      {
        var k :| k in todo;
        var kept := Retain(table[k], rule);
        if kept != [] {
          swept := swept[k := kept];
        }
        todo := todo - {k};
      }
      assert swept == Sweep(table, rule);
      SweepWellFormed(table, rule);
      forall k, lk ensures Find(Kept(Grants(table, k), rule), lk) == Surviving(Holder(table, k, lk), rule) {
        FindKept(Grants(table, k), rule, lk);
      }
      table := swept;
    }
  }
}
