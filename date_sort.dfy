/**
 * `sorted(player_transfers, key=transfer_date)` of reduce_transfers: Python's sort
 * is stable, so transfers on the same date keep their file order. The sort is
 * written as an insertion sort that inserts every transfer after the ones whose
 * date is not later than its own.
 */
module DateSort {
  import opened Wrappers
  import opened Values
  import opened Records

  /** The order of sort keys: a missing date first, then dates in calendar order. */
  predicate KeyLe(a: Option<Date>, b: Option<Date>)
  {
    a.None? || (b.Some? && DateLe(a.value, b.value))
  }

  lemma KeyLeTotal(a: Option<Date>, b: Option<Date>)
    ensures KeyLe(a, b) || KeyLe(b, a)
    ensures KeyLe(a, b) && KeyLe(b, a) ==> a == b
  {
    if a.Some? && b.Some? {
      DateLeTotal(a.value, b.value);
    }
  }

  lemma KeyLeTrans(a: Option<Date>, b: Option<Date>, c: Option<Date>)
    requires KeyLe(a, b) && KeyLe(b, c)
    ensures KeyLe(a, c)
  {
    if a.Some? {
      DateLeTrans(a.value, b.value, c.value);
    }
  }

  predicate SortedByDate(s: seq<FlaggedTransfer>)
  {
    forall i, j :: 0 <= i < j < |s| ==> KeyLe(s[i].TransferDate(), s[j].TransferDate())
  }

  /** Inserts `x` after every element whose date is not later than its own. */
  function Insert(x: FlaggedTransfer, s: seq<FlaggedTransfer>): seq<FlaggedTransfer>
  {
    if s == [] || KeyLe(s[|s| - 1].TransferDate(), x.TransferDate()) then s + [x]
    else Insert(x, s[..|s| - 1]) + [s[|s| - 1]]
  }

  function SortByDate(s: seq<FlaggedTransfer>): seq<FlaggedTransfer>
  {
    if s == [] then [] else Insert(s[|s| - 1], SortByDate(s[..|s| - 1]))
  }

  /** A sorted sequence stays sorted when an element no earlier than all of it is appended. */
  lemma SortedAppend(s: seq<FlaggedTransfer>, x: FlaggedTransfer)
    requires SortedByDate(s)
    requires forall k :: 0 <= k < |s| ==> KeyLe(s[k].TransferDate(), x.TransferDate())
    ensures SortedByDate(s + [x])
  {
  }

  lemma {:induction false} InsertSorted(x: FlaggedTransfer, s: seq<FlaggedTransfer>)
    requires SortedByDate(s)
    ensures SortedByDate(Insert(x, s))
    ensures multiset(Insert(x, s)) == multiset(s) + multiset{x}
  {
    if s == [] || KeyLe(s[|s| - 1].TransferDate(), x.TransferDate()) {
      if s != [] {
        forall k | 0 <= k < |s|
          ensures KeyLe(s[k].TransferDate(), x.TransferDate())
        {
          if k < |s| - 1 {
            KeyLeTrans(s[k].TransferDate(), s[|s| - 1].TransferDate(), x.TransferDate());
          }
        }
      }
      SortedAppend(s, x);
    } else {
      var init, last := s[..|s| - 1], s[|s| - 1];
      assert s == init + [last];
      InsertSorted(x, init);
      var r := Insert(x, init);
      KeyLeTotal(last.TransferDate(), x.TransferDate());
      forall k | 0 <= k < |r|
        ensures KeyLe(r[k].TransferDate(), last.TransferDate())
      {
        assert r[k] in multiset(r);
        if r[k] != x {
          assert r[k] in multiset(init);
          var j :| 0 <= j < |init| && init[j] == r[k];
        }
      }
      SortedAppend(r, last);
    }
  }

  /** The sort returns its input in date order, as a permutation of it. */
  lemma {:induction false} SortByDateSorted(s: seq<FlaggedTransfer>)
    ensures SortedByDate(SortByDate(s))
    ensures multiset(SortByDate(s)) == multiset(s)
  {
    if s != [] {
      var init, last := s[..|s| - 1], s[|s| - 1];
      SortByDateSorted(init);
      var r := SortByDate(init);
      InsertSorted(last, r);
      assert SortByDate(s) == Insert(last, r);
      assert s == init + [last];
      assert multiset(s) == multiset(init) + multiset{last};
    }
  }

  /** The transfers of `s` dated `d`, in order. */
  function WithDate(s: seq<FlaggedTransfer>, d: Option<Date>): seq<FlaggedTransfer>
  {
    if s == [] then []
    else WithDate(s[..|s| - 1], d) + (if s[|s| - 1].TransferDate() == d then [s[|s| - 1]] else [])
  }

  lemma {:induction false} InsertStable(x: FlaggedTransfer, s: seq<FlaggedTransfer>, d: Option<Date>)
    ensures WithDate(Insert(x, s), d) == WithDate(s, d) + (if x.TransferDate() == d then [x] else [])
  {
    if s == [] || KeyLe(s[|s| - 1].TransferDate(), x.TransferDate()) {
      WithDateAppend(s, x, d);
    } else {
      var init, last := s[..|s| - 1], s[|s| - 1];
      InsertStable(x, init, d);
      var r := Insert(x, init);
      assert Insert(x, s) == r + [last];
      WithDateAppend(r, last, d);
      assert s == init + [last];
      WithDateAppend(init, last, d);
      KeyLeTotal(x.TransferDate(), x.TransferDate());
      assert x.TransferDate() != d || last.TransferDate() != d;
    }
  }

  lemma WithDateAppend(s: seq<FlaggedTransfer>, t: FlaggedTransfer, d: Option<Date>)
    ensures WithDate(s + [t], d) == WithDate(s, d) + (if t.TransferDate() == d then [t] else [])
  {
    assert (s + [t])[..|s|] == s;
  }

  /** Stability: among transfers of the same date the sort keeps the input order. */
  lemma {:induction false} SortByDateStable(s: seq<FlaggedTransfer>, d: Option<Date>)
    ensures WithDate(SortByDate(s), d) == WithDate(s, d)
  {
    if s != [] {
      var init := s[..|s| - 1];
      SortByDateStable(init, d);
      InsertStable(s[|s| - 1], SortByDate(init), d);
    }
  }

  /** Reading more of `s` never shortens its list of transfers dated `d`. */
  lemma {:induction false} WithDatePrefixMono(s: seq<FlaggedTransfer>, a: nat, b: nat, d: Option<Date>)
    requires a <= b <= |s|
    ensures |WithDate(s[..a], d)| <= |WithDate(s[..b], d)|
  {
    if a < b {
      WithDatePrefixMono(s, a, b - 1, d);
      assert s[..b] == s[..b - 1] + [s[b - 1]];
      WithDateAppend(s[..b - 1], s[b - 1], d);
    }
  }

  /** A transfer dated `d` at index `j` of `s` sits in WithDate(s, d) after those dated `d` before it. */
  lemma {:induction false} WithDateAt(s: seq<FlaggedTransfer>, j: nat, d: Option<Date>)
    requires j < |s| && s[j].TransferDate() == d
    ensures |WithDate(s[..j], d)| < |WithDate(s, d)|
    ensures WithDate(s, d)[|WithDate(s[..j], d)|] == s[j]
  {
    var n := |s| - 1;
    var init := s[..n];
    assert s == init + [s[n]];
    WithDateAppend(init, s[n], d);
    if j < n {
      WithDateAt(init, j, d);
      assert init[..j] == s[..j];
    } else {
      assert init == s[..j];
    }
  }

  /** Sorting an already sorted chain changes nothing. */
  lemma {:induction false} SortSortedUnchanged(s: seq<FlaggedTransfer>)
    requires SortedByDate(s)
    ensures SortByDate(s) == s
  {
    if s != [] {
      var init := s[..|s| - 1];
      SortSortedUnchanged(init);
      assert s == init + [s[|s| - 1]];
    }
  }
}
