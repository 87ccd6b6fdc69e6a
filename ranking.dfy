/**
 * Ranking of one division's teams: Python's `list.sort(key=lambda x:
 * (x['win_pct'], x['in_division_win_pct']), reverse=True)`. The sort is
 * specified by a stable insertion sort; `SortUnique` shows that every stable
 * sort (Python's included) yields the same list.
 */
module Ranking {

  /** One team's entry of a division table, as built by `get_standings`. */
  datatype Entry = Entry(
    team: string,
    name: string,
    wins: int,
    losses: int,
    ties: int,
    winPct: real,
    inDivisionWins: int,
    inDivisionLosses: int,
    inDivisionTies: int,
    inDivisionWinPct: real,
    season: int)

  /** `a` ranks strictly ahead of `b`: its key (win_pct, in_division_win_pct)
      is lexicographically larger. */
  predicate Ahead(a: Entry, b: Entry) {
    a.winPct > b.winPct || (a.winPct == b.winPct && a.inDivisionWinPct > b.inDivisionWinPct)
  }

  /** `e` has the sort key (winPct, inDivPct). */
  predicate HasKey(e: Entry, winPct: real, inDivPct: real) {
    e.winPct == winPct && e.inDivisionWinPct == inDivPct
  }

  /** Non-increasing in the sort key: no entry ranks ahead of an earlier one. */
  predicate Ranked(s: seq<Entry>) {
    forall i, j :: 0 <= i < j < |s| ==> !Ahead(s[j], s[i])
  }

  /** The entries of `s` whose key is (winPct, inDivPct), in their order in `s`. */
  function WithKey(s: seq<Entry>, winPct: real, inDivPct: real): seq<Entry> {
    if s == [] then []
    else (if HasKey(s[0], winPct, inDivPct) then [s[0]] else []) + WithKey(s[1..], winPct, inDivPct)
  }

  /** Puts `x` into the ranked list `s` after every entry that is not behind it. */
  function Insert(x: Entry, s: seq<Entry>): seq<Entry> {
    if s == [] then [x]
    else if Ahead(x, s[0]) then [x] + s
    else [s[0]] + Insert(x, s[1..])
  }

  /** The stable descending sort: each entry, in input order, is inserted
      after the equal-keyed entries that came before it. */
  function SortDescending(s: seq<Entry>): seq<Entry> {
    if s == [] then [] else Insert(s[|s| - 1], SortDescending(s[..|s| - 1]))
  }

  lemma {:induction false} WithKeyAppend(a: seq<Entry>, b: seq<Entry>, winPct: real, inDivPct: real)
    ensures WithKey(a + b, winPct, inDivPct) == WithKey(a, winPct, inDivPct) + WithKey(b, winPct, inDivPct)
  {
    if a == [] {
      assert a + b == b;
    } else {
      assert (a + b)[0] == a[0] && (a + b)[1..] == a[1..] + b;
      WithKeyAppend(a[1..], b, winPct, inDivPct);
    }
  }

  lemma {:induction false} WithKeyNone(s: seq<Entry>, winPct: real, inDivPct: real)
    requires forall e :: e in s ==> !HasKey(e, winPct, inDivPct)
    ensures WithKey(s, winPct, inDivPct) == []
  {
    if s != [] {
      assert forall e :: e in s[1..] ==> e in s;
      WithKeyNone(s[1..], winPct, inDivPct);
    }
  }

  lemma {:induction false} WithKeyMembers(s: seq<Entry>, winPct: real, inDivPct: real)
    ensures forall e :: e in WithKey(s, winPct, inDivPct) <==> e in s && HasKey(e, winPct, inDivPct)
  {
    if s != [] {
      WithKeyMembers(s[1..], winPct, inDivPct);
      assert s == [s[0]] + s[1..];
    }
  }

  /** In a ranked list nothing ranks ahead of the leader. */
  lemma LeaderNotBehind(s: seq<Entry>, e: Entry)
    requires Ranked(s) && s != [] && e in s
    ensures !Ahead(e, s[0])
  {
    var j :| 0 <= j < |s| && s[j] == e;
    if j > 0 {
      assert !Ahead(s[j], s[0]);
    }
  }

  /** An entry that nothing in the ranked list `r` ranks ahead of may lead it. */
  lemma ConsRanked(x: Entry, r: seq<Entry>)
    requires Ranked(r)
    requires forall e :: e in r ==> !Ahead(e, x)
    ensures Ranked([x] + r)
  {
    var xr := [x] + r;
    forall i, j | 0 <= i < j < |xr| ensures !Ahead(xr[j], xr[i]) {
      assert xr[j] == r[j - 1];
      if i > 0 {
        assert xr[i] == r[i - 1];
      } else {
        assert xr[j] in r;
      }
    }
  }

  lemma {:induction false} InsertRanked(x: Entry, s: seq<Entry>)
    requires Ranked(s)
    ensures Ranked(Insert(x, s))
    ensures multiset(Insert(x, s)) == multiset(s) + multiset{x}
  {
    if s == [] {
    } else if Ahead(x, s[0]) {
      forall e | e in s ensures !Ahead(e, x) {
        LeaderNotBehind(s, e);
      }
      ConsRanked(x, s);
    } else {
      var t := s[1..];
      assert s == [s[0]] + t;
      assert Ranked(t);
      InsertRanked(x, t);
      var r := Insert(x, t);
      forall e | e in r ensures !Ahead(e, s[0]) {
        assert e in multiset(r);
        if e != x {
          assert e in t;
          LeaderNotBehind(s, e);
        }
      }
      ConsRanked(s[0], r);
    }
  }

  lemma {:induction false} InsertStable(x: Entry, s: seq<Entry>, winPct: real, inDivPct: real)
    requires Ranked(s)
    ensures WithKey(Insert(x, s), winPct, inDivPct)
         == WithKey(s, winPct, inDivPct) + (if HasKey(x, winPct, inDivPct) then [x] else [])
  {
    if s == [] {
      assert WithKey([x], winPct, inDivPct) == (if HasKey(x, winPct, inDivPct) then [x] else []) + WithKey([], winPct, inDivPct);
    } else if Ahead(x, s[0]) {
      WithKeyAppend([x], s, winPct, inDivPct);
      assert WithKey([x], winPct, inDivPct) == (if HasKey(x, winPct, inDivPct) then [x] else []) + WithKey([], winPct, inDivPct);
      if HasKey(x, winPct, inDivPct) {
        forall e | e in s ensures !HasKey(e, winPct, inDivPct) {
          LeaderNotBehind(s, e);
        }
        WithKeyNone(s, winPct, inDivPct);
      } else {
        WithKeyAppend(s, [x], winPct, inDivPct);
        assert WithKey([x], winPct, inDivPct) == [];
      }
    } else {
      var t := s[1..];
      assert Ranked(t);
      InsertStable(x, t, winPct, inDivPct);
      assert ([s[0]] + Insert(x, t))[1..] == Insert(x, t);
    }
  }

  /** The sort returns a ranked permutation of its input. */
  lemma {:induction false} SortRanked(s: seq<Entry>)
    ensures Ranked(SortDescending(s))
    ensures multiset(SortDescending(s)) == multiset(s)
    ensures |SortDescending(s)| == |s|
  {
    if s != [] {
      var n := |s| - 1;
      SortRanked(s[..n]);
      InsertRanked(s[n], SortDescending(s[..n]));
      assert s == s[..n] + [s[n]];
      assert |multiset(SortDescending(s))| == |multiset(s)|;
    }
  }

  lemma WithKeySingle(x: Entry, winPct: real, inDivPct: real)
    ensures WithKey([x], winPct, inDivPct) == if HasKey(x, winPct, inDivPct) then [x] else []
  {
    assert [x][1..] == [];
  }

  /** Stability: entries with equal keys keep their input order. */
  lemma {:induction false} SortStable(s: seq<Entry>, winPct: real, inDivPct: real)
    ensures WithKey(SortDescending(s), winPct, inDivPct) == WithKey(s, winPct, inDivPct)
  {
    if s != [] {
      var n := |s| - 1;
      var init, x := s[..n], s[n];
      var t := SortDescending(init);
      assert SortDescending(s) == Insert(x, t);
      SortStable(init, winPct, inDivPct);
      SortRanked(init);
      InsertStable(x, t, winPct, inDivPct);
      assert s == init + [x];
      WithKeyAppend(init, [x], winPct, inDivPct);
      WithKeySingle(x, winPct, inDivPct);
    }
  }

  /** Two ranked lists that agree on the order of every key class have the same leader. */
  lemma SameLeader(r1: seq<Entry>, r2: seq<Entry>)
    requires Ranked(r1) && Ranked(r2) && r1 != [] && r2 != []
    requires forall w, d :: WithKey(r1, w, d) == WithKey(r2, w, d)
    ensures r1[0] == r2[0]
  {
    var a, b := r1[0], r2[0];
    WithKeyMembers(r1, a.winPct, a.inDivisionWinPct);
    WithKeyMembers(r2, a.winPct, a.inDivisionWinPct);
    WithKeyMembers(r1, b.winPct, b.inDivisionWinPct);
    WithKeyMembers(r2, b.winPct, b.inDivisionWinPct);
    assert a in WithKey(r1, a.winPct, a.inDivisionWinPct);
    LeaderNotBehind(r2, a);
    assert b in WithKey(r2, b.winPct, b.inDivisionWinPct);
    LeaderNotBehind(r1, b);
    assert HasKey(b, a.winPct, a.inDivisionWinPct);
    assert WithKey(r1, a.winPct, a.inDivisionWinPct)[0] == a;
    assert WithKey(r2, a.winPct, a.inDivisionWinPct)[0] == b;
  }

  /** Removing the same leader from both keeps the key classes in agreement. */
  lemma TailsAgree(r1: seq<Entry>, r2: seq<Entry>)
    requires r1 != [] && r2 != [] && r1[0] == r2[0]
    requires forall w, d :: WithKey(r1, w, d) == WithKey(r2, w, d)
    ensures forall w, d :: WithKey(r1[1..], w, d) == WithKey(r2[1..], w, d)
  {
    forall w, d ensures WithKey(r1[1..], w, d) == WithKey(r2[1..], w, d) {
      var head := if HasKey(r1[0], w, d) then [r1[0]] else [];
      assert WithKey(r1, w, d) == head + WithKey(r1[1..], w, d);
      assert WithKey(r2, w, d) == head + WithKey(r2[1..], w, d);
      assert WithKey(r1[1..], w, d) == WithKey(r1, w, d)[|head|..];
      assert WithKey(r2[1..], w, d) == WithKey(r2, w, d)[|head|..];
    }
  }

  /** Two ranked lists that agree on the order of every key class are equal. */
  lemma {:induction false} RankedUnique(r1: seq<Entry>, r2: seq<Entry>)
    requires Ranked(r1) && Ranked(r2)
    requires forall w, d :: WithKey(r1, w, d) == WithKey(r2, w, d)
    ensures r1 == r2
    decreases |r1|
  {
    assert r1 != [] ==> WithKey(r1, r1[0].winPct, r1[0].inDivisionWinPct) != [];
    assert r2 != [] ==> WithKey(r2, r2[0].winPct, r2[0].inDivisionWinPct) != [];
    if r1 != [] && r2 != [] {
      SameLeader(r1, r2);
      TailsAgree(r1, r2);
      assert Ranked(r1[1..]) && Ranked(r2[1..]);
      RankedUnique(r1[1..], r2[1..]);
      assert r1 == [r1[0]] + r1[1..] && r2 == [r2[0]] + r2[1..];
    }
  }

  /** Any stable descending sort of `s` (a ranked list with the same order
      inside every key class) is `SortDescending(s)`. */
  lemma SortUnique(s: seq<Entry>, r: seq<Entry>)
    requires Ranked(r)
    requires forall w, d :: WithKey(r, w, d) == WithKey(s, w, d)
    ensures r == SortDescending(s)
  {
    SortRanked(s);
    forall w, d ensures WithKey(r, w, d) == WithKey(SortDescending(s), w, d) {
      SortStable(s, w, d);
    }
    RankedUnique(r, SortDescending(s));
  }

  /** A strictly higher win percentage always comes first, whatever the
      in-division percentages; with equal win percentages, a strictly higher
      in-division percentage comes first. */
  lemma RankedPrecedence(s: seq<Entry>, i: int, j: int)
    requires Ranked(s)
    requires 0 <= i < |s| && 0 <= j < |s|
    requires s[i].winPct > s[j].winPct
          || (s[i].winPct == s[j].winPct && s[i].inDivisionWinPct > s[j].inDivisionWinPct)
    ensures i < j
  {
  }
}
