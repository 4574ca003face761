/** The reconciliation of the canonical lots with the polished mirror table. */
module MirrorReconciliation {

  /** A row of either table: the lot it stands for, whether it is current (mirror rows always are), and
      whether the caller's scope admits it. */
  datatype Row = Row(lotId: string, isCurrent: bool, inScope: bool)

  predicate UniqueIds(rows: seq<Row>) {
    forall i, j :: 0 <= i < j < |rows| ==> rows[i].lotId != rows[j].lotId
  }

  function Ids(rows: seq<Row>): set<string> {
    set i | 0 <= i < |rows| :: rows[i].lotId
  }

  function ScopedIds(rows: seq<Row>): set<string> {
    set i | 0 <= i < |rows| && rows[i].inScope :: rows[i].lotId
  }

  function CurrentIds(rows: seq<Row>): set<string> {
    set i | 0 <= i < |rows| && rows[i].isCurrent :: rows[i].lotId
  }

  function ScopedCurrentIds(rows: seq<Row>): set<string> {
    set i | 0 <= i < |rows| && rows[i].isCurrent && rows[i].inScope :: rows[i].lotId
  }

  predicate Counted(r: Row) { r.isCurrent && r.inScope }

  /** How many current rows in scope have an id in `ids`. */
  function CountIn(rows: seq<Row>, ids: set<string>): nat {
    if rows == [] then 0
    else (if Counted(rows[0]) && rows[0].lotId in ids then 1 else 0) + CountIn(rows[1..], ids)
  }

  function CountAll(rows: seq<Row>): nat {
    if rows == [] then 0 else (if Counted(rows[0]) then 1 else 0) + CountAll(rows[1..])
  }

  function CountOutside(rows: seq<Row>, ids: set<string>): nat {
    if rows == [] then 0
    else (if Counted(rows[0]) && rows[0].lotId !in ids then 1 else 0) + CountOutside(rows[1..], ids)
  }

  // ----- The reported numbers -----

  function CanonicalCurrent(lots: seq<Row>): nat { CountAll(lots) }

  function PolishedMirrorRows(mirror: seq<Row>): nat { CountAll(mirror) }

  /** The join of both tables on the lot id: the matching current lots in scope, mirror row by mirror row. */
  function PresentInBoth(lots: seq<Row>, mirror: seq<Row>): nat {
    if mirror == [] then 0
    else (if mirror[0].inScope then CountIn(lots, {mirror[0].lotId}) else 0) + PresentInBoth(lots, mirror[1..])
  }

  /** NOT EXISTS looks at the whole mirror table, in scope or not. */
  function CanonicalOnly(lots: seq<Row>, mirror: seq<Row>): nat { CountOutside(lots, Ids(mirror)) }

  /** NOT EXISTS looks at all current lots, in scope or not. */
  function MirrorOnly(lots: seq<Row>, mirror: seq<Row>): nat { CountOutside(mirror, CurrentIds(lots)) }

  // ----- Counting -----

  lemma {:induction false} CountSplits(rows: seq<Row>, a: set<string>, b: set<string>)
    requires a !! b
    ensures CountIn(rows, a + b) == CountIn(rows, a) + CountIn(rows, b)
  {
    if rows != [] {
      CountSplits(rows[1..], a, b);
    }
  }

  lemma {:induction false} CountPartitions(rows: seq<Row>, ids: set<string>)
    ensures CountAll(rows) == CountIn(rows, ids) + CountOutside(rows, ids)
  {
    if rows != [] {
      CountPartitions(rows[1..], ids);
    }
  }

  lemma {:induction false} CountZero(rows: seq<Row>, ids: set<string>)
    ensures CountIn(rows, ids) == 0 <==> forall i :: 0 <= i < |rows| && Counted(rows[i]) ==> rows[i].lotId !in ids
  {
    if rows != [] {
      CountZero(rows[1..], ids);
      assert forall i :: 0 < i < |rows| ==> rows[i] == rows[1..][i - 1];
      assert forall i :: 0 <= i < |rows[1..]| ==> rows[1..][i] == rows[i + 1];
    }
  }

  lemma {:induction false} CountNone(rows: seq<Row>)
    ensures CountIn(rows, {}) == 0
  {
    if rows != [] {
      CountNone(rows[1..]);
    }
  }

  lemma TailIds(mirror: seq<Row>)
    requires mirror != [] && UniqueIds(mirror)
    ensures UniqueIds(mirror[1..]) && mirror[0].lotId !in ScopedIds(mirror[1..])
    ensures ScopedIds(mirror) == (if mirror[0].inScope then {mirror[0].lotId} else {}) + ScopedIds(mirror[1..])
  {
    var rest := mirror[1..];
    forall id | id in ScopedIds(mirror)
      ensures id in (if mirror[0].inScope then {mirror[0].lotId} else {}) + ScopedIds(rest)
    {
      var i :| 0 <= i < |mirror| && mirror[i].inScope && mirror[i].lotId == id;
      if i > 0 {
        assert rest[i - 1] == mirror[i];
      }
    }
    forall id | id in ScopedIds(rest)
      ensures id in ScopedIds(mirror) && id != mirror[0].lotId
    {
      var i :| 0 <= i < |rest| && rest[i].inScope && rest[i].lotId == id;
      assert mirror[i + 1] == rest[i];
    }
  }

  /** With unique mirror ids the join counts each current lot in scope that has a mirror row in scope. */
  lemma {:induction false} JoinCountsLots(lots: seq<Row>, mirror: seq<Row>)
    requires UniqueIds(mirror)
    ensures PresentInBoth(lots, mirror) == CountIn(lots, ScopedIds(mirror))
    decreases |mirror|
  {
    if mirror == [] {
      assert ScopedIds(mirror) == {};
      CountNone(lots);
    } else {
      TailIds(mirror);
      JoinCountsLots(lots, mirror[1..]);
      if mirror[0].inScope {
        CountSplits(lots, {mirror[0].lotId}, ScopedIds(mirror[1..]));
      } else {
        assert ScopedIds(mirror) == ScopedIds(mirror[1..]);
      }
    }
  }

  lemma {:induction false} UniqueIdCountsOnce(lots: seq<Row>, id: string)
    requires UniqueIds(lots)
    ensures CountIn(lots, {id}) == if id in ScopedCurrentIds(lots) then 1 else 0
  {
    if lots != [] {
      var rest := lots[1..];
      UniqueIdCountsOnce(rest, id);
      if id in ScopedCurrentIds(rest) {
        var i :| 0 <= i < |rest| && Counted(rest[i]) && rest[i].lotId == id;
        assert lots[i + 1] == rest[i];
      }
      if id in ScopedCurrentIds(lots) {
        var i :| 0 <= i < |lots| && Counted(lots[i]) && lots[i].lotId == id;
        if i > 0 {
          assert rest[i - 1] == lots[i];
        }
      }
    }
  }

  /** With unique lot ids the join counts each mirror row in scope that has a current lot in scope. */
  lemma {:induction false} JoinCountsMirror(lots: seq<Row>, mirror: seq<Row>)
    requires UniqueIds(lots) && forall i :: 0 <= i < |mirror| ==> mirror[i].isCurrent
    ensures PresentInBoth(lots, mirror) == CountIn(mirror, ScopedCurrentIds(lots))
    decreases |mirror|
  {
    if mirror != [] {
      UniqueIdCountsOnce(lots, mirror[0].lotId);
      JoinCountsMirror(lots, mirror[1..]);
    }
  }

  // ----- The two identities -----

  /** Every current lot in scope is present in both tables or canonical only, if and only if none of them
      has a mirror row that the scope hides. */
  lemma CanonicalSideReconciles(lots: seq<Row>, mirror: seq<Row>)
    requires UniqueIds(mirror)
    ensures CanonicalCurrent(lots) == PresentInBoth(lots, mirror) + CanonicalOnly(lots, mirror)
      <==> forall i :: 0 <= i < |lots| && Counted(lots[i]) ==> lots[i].lotId !in Ids(mirror) - ScopedIds(mirror)
  {
    var hidden := Ids(mirror) - ScopedIds(mirror);
    assert Ids(mirror) == ScopedIds(mirror) + hidden;
    JoinCountsLots(lots, mirror);
    CountPartitions(lots, Ids(mirror));
    CountSplits(lots, ScopedIds(mirror), hidden);
    CountZero(lots, hidden);
  }

  /** Every mirror row in scope is present in both tables or mirror only, if and only if none of them
      has a current lot that the scope hides. */
  lemma MirrorSideReconciles(lots: seq<Row>, mirror: seq<Row>)
    requires UniqueIds(lots) && forall i :: 0 <= i < |mirror| ==> mirror[i].isCurrent
    ensures PolishedMirrorRows(mirror) == PresentInBoth(lots, mirror) + MirrorOnly(lots, mirror)
      <==> forall i :: 0 <= i < |mirror| && Counted(mirror[i]) ==> mirror[i].lotId !in CurrentIds(lots) - ScopedCurrentIds(lots)
  {
    var hidden := CurrentIds(lots) - ScopedCurrentIds(lots);
    assert CurrentIds(lots) == ScopedCurrentIds(lots) + hidden;
    JoinCountsMirror(lots, mirror);
    CountPartitions(mirror, CurrentIds(lots));
    CountSplits(mirror, ScopedCurrentIds(lots), hidden);
    CountZero(mirror, hidden);
  }

  /** With an unrestricted scope and unique lot ids both sides always reconcile. */
  lemma UnrestrictedScopeReconciles(lots: seq<Row>, mirror: seq<Row>)
    requires UniqueIds(lots) && UniqueIds(mirror)
    requires forall i :: 0 <= i < |lots| ==> lots[i].inScope
    requires forall i :: 0 <= i < |mirror| ==> mirror[i].inScope && mirror[i].isCurrent
    ensures CanonicalCurrent(lots) == PresentInBoth(lots, mirror) + CanonicalOnly(lots, mirror)
    ensures PolishedMirrorRows(mirror) == PresentInBoth(lots, mirror) + MirrorOnly(lots, mirror)
  {
    assert Ids(mirror) - ScopedIds(mirror) == {};
    assert CurrentIds(lots) - ScopedCurrentIds(lots) == {};
    CanonicalSideReconciles(lots, mirror);
    MirrorSideReconciles(lots, mirror);
  }
}
