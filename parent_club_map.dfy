/**
 * Stage 00, build_parent_club_map_from_csv: every child club id of the CSV is
 * mapped to the parent id of its earliest-modified row. Rows are grouped by
 * child in file order, then each group is replaced by `min(group, key=timestamp)`,
 * which keeps the first of several equal minima.
 */
module ParentClubMap {
  import opened Wrappers
  import opened Records

  /**
   * A row of parent_club_map.csv. `lastModifiedAt` is the parsed `_last_modified_at`,
   * written as the number YYYYMMDDhhmmss, which orders as the datetime does.
   */
  datatype MappingRow = MappingRow(childTeamId: ClubId, parentTeamId: ClubId, lastModifiedAt: nat)

  /** The (timestamp, parent) tuple appended to a child's group. */
  datatype Candidate = Candidate(lastModifiedAt: nat, parentTeamId: ClubId)

  function CandidateOf(row: MappingRow): Candidate
  {
    Candidate(row.lastModifiedAt, row.parentTeamId)
  }

  /** The group the first loop builds for `child`: its rows' candidates in file order. */
  function Candidates(rows: seq<MappingRow>, child: ClubId): seq<Candidate>
  {
    if rows == [] then []
    else
      var last := rows[|rows| - 1];
      Candidates(rows[..|rows| - 1], child) + (if last.childTeamId == child then [CandidateOf(last)] else [])
  }

  /** `min(group, key=lambda x: x[0])`: the position of the first candidate with the least timestamp. */
  function EarliestIndex(cs: seq<Candidate>): (i: nat)
    requires |cs| > 0
    ensures i < |cs|
    ensures forall j :: 0 <= j < |cs| ==> cs[i].lastModifiedAt <= cs[j].lastModifiedAt
    ensures forall j :: 0 <= j < i ==> cs[i].lastModifiedAt < cs[j].lastModifiedAt
  {
    if |cs| == 1 then 0
    else
      var k := EarliestIndex(cs[..|cs| - 1]);
      if cs[|cs| - 1].lastModifiedAt < cs[k].lastModifiedAt then |cs| - 1 else k
  }

  /** The candidate that wins for `child`, None when no row names it. */
  function Earliest(rows: seq<MappingRow>, child: ClubId): Option<Candidate>
  {
    var cs := Candidates(rows, child);
    if cs == [] then None else Some(cs[EarliestIndex(cs)])
  }

  /** The parent the output map gives `child`, None when the child is absent from it. */
  function ResolvedParent(rows: seq<MappingRow>, child: ClubId): Option<ClubId>
  {
    match Earliest(rows, child)
    case None => None
    case Some(c) => Some(c.parentTeamId)
  }

  method BuildParentClubMap(rows: seq<MappingRow>) returns (parentMap: map<ClubId, ClubId>)
    ensures forall child :: ResolvedParent(rows, child) == (if child in parentMap then Some(parentMap[child]) else None)
  {
    var groups: map<ClubId, seq<Candidate>> := map[];
    for i := 0 to |rows|
      invariant forall child :: Candidates(rows[..i], child) == (if child in groups then groups[child] else [])
      invariant forall child :: child in groups ==> groups[child] != []
    {
      var row := rows[i];
      var group := if row.childTeamId in groups then groups[row.childTeamId] else [];
      groups := groups[row.childTeamId := group + [CandidateOf(row)]];
      assert rows[..i + 1][..i] == rows[..i];
    }
    assert rows[..|rows|] == rows;

    parentMap := map[];
    var pending := groups.Keys;
    while pending != {}
      invariant pending <= groups.Keys
      invariant parentMap.Keys == groups.Keys - pending
      invariant forall child :: child in parentMap ==> ResolvedParent(rows, child) == Some(parentMap[child])
      decreases pending
    {
      var child :| child in pending;
      var group := groups[child];
      parentMap := parentMap[child := group[EarliestIndex(group)].parentTeamId];
      pending := pending - {child};
    }
  }

  /** Row j is the row of `child` whose timestamp is least, and the first such row. */
  ghost predicate EarliestRow(rows: seq<MappingRow>, child: ClubId, j: int)
  {
    && 0 <= j < |rows|
    && rows[j].childTeamId == child
    && (forall k :: 0 <= k < |rows| && rows[k].childTeamId == child ==> rows[j].lastModifiedAt <= rows[k].lastModifiedAt)
    && (forall k :: 0 <= k < j && rows[k].childTeamId == child ==> rows[j].lastModifiedAt < rows[k].lastModifiedAt)
  }

  /** Reading one more row: the new row wins iff it names the child and is strictly earlier. */
  lemma EarliestStep(rows: seq<MappingRow>, child: ClubId)
    requires rows != []
    ensures var last, prev := rows[|rows| - 1], Earliest(rows[..|rows| - 1], child);
      Earliest(rows, child) ==
        if last.childTeamId != child then prev
        else if prev.None? || last.lastModifiedAt < prev.value.lastModifiedAt then Some(CandidateOf(last))
        else prev
  {
    var n := |rows| - 1;
    var cs0 := Candidates(rows[..n], child);
    var cs := Candidates(rows, child);
    if rows[n].childTeamId == child {
      assert cs == cs0 + [CandidateOf(rows[n])];
      if cs0 != [] {
        assert cs[..|cs| - 1] == cs0;
        var k := EarliestIndex(cs0);
        assert cs[k] == cs0[k];
        assert EarliestIndex(cs) == if CandidateOf(rows[n]).lastModifiedAt < cs0[k].lastModifiedAt then |cs| - 1 else k;
      }
    } else {
      assert cs == cs0;
    }
  }

  /** A child is resolved exactly when some row of the file names it. */
  lemma {:induction false} ResolvedIffListed(rows: seq<MappingRow>, child: ClubId)
    ensures Earliest(rows, child).None? <==> forall j :: 0 <= j < |rows| ==> rows[j].childTeamId != child
  {
    if rows != [] {
      var n := |rows| - 1;
      ResolvedIffListed(rows[..n], child);
      EarliestStep(rows, child);
      assert forall k :: 0 <= k < n ==> rows[k] == rows[..n][k];
    }
  }

  /**
   * A resolved child gets the parent of its earliest row, ties going to the row
   * that comes first in the file.
   */
  lemma {:induction false} ResolvedParentIsEarliestRow(rows: seq<MappingRow>, child: ClubId) returns (w: nat)
    requires Earliest(rows, child).Some?
    ensures EarliestRow(rows, child, w) && CandidateOf(rows[w]) == Earliest(rows, child).value
  {
    var n := |rows| - 1;
    var init := rows[..n];
    EarliestStep(rows, child);
    var prev := Earliest(init, child);
    if prev.Some? {
      var j := ResolvedParentIsEarliestRow(init, child);
      if rows[n].childTeamId == child && rows[n].lastModifiedAt < prev.value.lastModifiedAt {
        forall k | 0 <= k < |rows| && rows[k].childTeamId == child
          ensures rows[n].lastModifiedAt <= rows[k].lastModifiedAt
        {
          if k < n { assert init[k] == rows[k]; }
        }
        forall k | 0 <= k < n && rows[k].childTeamId == child
          ensures rows[n].lastModifiedAt < rows[k].lastModifiedAt
        {
          assert init[k] == rows[k];
        }
        assert EarliestRow(rows, child, n);
        w := n;
      } else {
        forall k | 0 <= k < |rows| && rows[k].childTeamId == child
          ensures rows[j].lastModifiedAt <= rows[k].lastModifiedAt
        {
          if k < n { assert init[k] == rows[k]; }
        }
        forall k | 0 <= k < j && rows[k].childTeamId == child
          ensures rows[j].lastModifiedAt < rows[k].lastModifiedAt
        {
          assert init[k] == rows[k];
        }
        assert EarliestRow(rows, child, j);
        w := j;
      }
    } else {
      ResolvedIffListed(init, child);
      forall k | 0 <= k < n ensures rows[k].childTeamId != child {
        assert init[k] == rows[k];
      }
      assert EarliestRow(rows, child, n);
      w := n;
    }
  }

  /** Consequently the resolved parent is always one listed for that child, never another child's. */
  lemma ResolvedParentIsListed(rows: seq<MappingRow>, child: ClubId, parent: ClubId)
    requires ResolvedParent(rows, child) == Some(parent)
    ensures exists j :: 0 <= j < |rows| && rows[j].childTeamId == child && rows[j].parentTeamId == parent
  {
    var j := ResolvedParentIsEarliestRow(rows, child);
  }

  /** Grouping distributes over concatenation of the CSV. */
  lemma {:induction false} CandidatesAppend(a: seq<MappingRow>, b: seq<MappingRow>, child: ClubId)
    ensures Candidates(a + b, child) == Candidates(a, child) + Candidates(b, child)
  {
    if b == [] {
      assert a + b == a;
    } else {
      var n := |b| - 1;
      CandidatesAppend(a, b[..n], child);
      assert (a + b)[..|a + b| - 1] == a + b[..n];
      assert (a + b)[|a + b| - 1] == b[n];
    }
  }

  /** Inserting a row for another child anywhere in the file never changes `child`'s parent. */
  lemma OtherChildrenIrrelevant(rows: seq<MappingRow>, i: nat, row: MappingRow, child: ClubId)
    requires i <= |rows| && row.childTeamId != child
    ensures ResolvedParent(rows[..i] + [row] + rows[i..], child) == ResolvedParent(rows, child)
  {
    CandidatesAppend(rows[..i] + [row], rows[i..], child);
    CandidatesAppend(rows[..i], [row], child);
    CandidatesAppend(rows[..i], rows[i..], child);
    assert Candidates([row], child) == [] by { assert [row][..0] == []; }
    assert rows[..i] + rows[i..] == rows;
    assert Candidates(rows[..i] + [row] + rows[i..], child) == Candidates(rows, child);
  }

  /** Two rows for club A: the one modified in 2019 wins over the one modified in 2020. */
  lemma EarlierRowWins()
    ensures ResolvedParent([MappingRow("A", "X", 20200101000000), MappingRow("A", "Y", 20190101000000)], "A")
         == Some("Y")
  {
    var rows := [MappingRow("A", "X", 20200101000000), MappingRow("A", "Y", 20190101000000)];
    assert rows[..1] == [rows[0]] && rows[..1][..0] == [];
    var cs := [Candidate(20200101000000, "X"), Candidate(20190101000000, "Y")];
    assert Candidates(rows[..1], "A") == [cs[0]];
    assert Candidates(rows, "A") == cs;
    assert cs[..1] == [cs[0]];
    assert EarliestIndex(cs) == 1;
  }
}
