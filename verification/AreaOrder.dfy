/** The order in which areas are linked. */
module AreaOrder {
  import opened Assembly

  /** The small letters become capitals, `a` to `z` in order, and nothing else changes. */
  lemma CapitalLetters(c: char)
    ensures UpperChar('a') == 'A' && UpperChar('z') == 'Z'
    ensures 'a' <= c < 'z' ==> UpperChar((c as int + 1) as char) as int == UpperChar(c) as int + 1
    ensures c < 'a' || c > 'z' ==> UpperChar(c) == c
  {
  }

  /** The places of the known areas; every other area comes behind them. */
  function Rank(n: string): nat {
    if n == "_VECTOR" then 0
    else if n == "_SYS_PAGE0" then 1
    else if n == "_USR_PAGE0" then 2
    else if n == "_BIOS" then 3
    else if n == "_CODE" then 4
    else if n == "_DATA" then 5
    else if n == "_WORK" then 6
    else 7
  }

  /** `a` is a proper part of `b` from the front, or smaller where they first differ. */
  ghost predicate Earlier(a: string, b: string) {
    exists k: nat :: k <= |a| && k < |b| && a[..k] == b[..k] && (k == |a| || a[k] < b[k])
  }

  lemma {:induction false} BeforeIsEarlier(a: string, b: string)
    ensures Before(a, b) <==> Earlier(a, b)
    decreases |a|
  {
    if a != [] && b != [] && a[0] == b[0] {
      BeforeIsEarlier(a[1..], b[1..]);
      if k: nat :| k <= |a| && k < |b| && a[..k] == b[..k] && (k == |a| || a[k] < b[k]) {
        assert a[..k][0] == a[0] || k == 0;
        assert k > 0;
        assert a[1..][..k - 1] == a[..k][1..] && b[1..][..k - 1] == b[..k][1..];
      }
      if k: nat :| k <= |a[1..]| && k < |b[1..]| && a[1..][..k] == b[1..][..k] &&
                   (k == |a[1..]| || a[1..][k] < b[1..][k]) {
        assert a[..k + 1] == [a[0]] + a[1..][..k] && b[..k + 1] == [b[0]] + b[1..][..k];
      }
    } else if b != [] {
      assert a[..0] == b[..0];
      if k: nat :| k <= |a| && k < |b| && a[..k] == b[..k] && (k == |a| || a[k] < b[k]) {
        assert k > 0 ==> a[..k][0] == b[..k][0];
      }
    }
  }

  lemma {:induction false} BeforeTotal(a: string, b: string)
    ensures Before(a, b) || Before(b, a) || a == b
    ensures !(Before(a, b) && Before(b, a))
    decreases |a|
  {
    if a != [] && b != [] && a[0] == b[0] {
      BeforeTotal(a[1..], b[1..]);
      assert a == [a[0]] + a[1..] && b == [b[0]] + b[1..];
    }
  }

  lemma {:induction false} BeforeThrice(a: string, b: string, c: string)
    requires Before(a, b) && Before(b, c)
    ensures Before(a, c)
    decreases |a|
  {
    if a != [] && a[0] == b[0] == c[0] {
      BeforeThrice(a[1..], b[1..], c[1..]);
    }
  }

  ghost predicate Sorted(s: seq<string>) { forall i, j | 0 <= i < j < |s| :: Before(s[i], s[j]) }

  lemma {:induction false} InsertSorted(n: string, s: seq<string>)
    requires Sorted(s) && n !in s
    ensures Sorted(InsertName(n, s))
  {
    hide Before;
    if s != [] {
      BeforeTotal(n, s[0]);
      var r := InsertName(n, s);
      if Before(n, s[0]) {
        forall j | 0 < j < |r| ensures Before(n, r[j]) {
          if j > 1 { BeforeThrice(n, s[0], s[j - 1]); }
        }
      } else {
        InsertSorted(n, s[1..]);
        forall j | 0 < j < |r| ensures Before(s[0], r[j]) {
          assert r[j] in InsertName(n, s[1..]);
        }
      }
    }
  }

  lemma {:induction false} SortSorts(s: seq<string>)
    requires NoDup(s)
    ensures Sorted(SortNames(s))
  {
    if s != [] {
      forall n | n in s[1..] ensures n != s[0] {
        var i :| 0 <= i < |s[1..]| && s[1..][i] == n;
        assert s[i + 1] == n;
      }
      SortSorts(s[1..]);
      InsertSorted(s[0], SortNames(s[1..]));
    }
  }

  ghost predicate Precedes(a: string, b: string) { Rank(a) < Rank(b) || (Rank(a) == Rank(b) == 7 && Before(a, b)) }

  ghost predicate Ranked(s: seq<string>) { forall i, j | 0 <= i < j < |s| :: Precedes(s[i], s[j]) }

  lemma {:induction false} PickRanked(s: seq<string>, these: seq<string>, keep: bool)
    requires Ranked(s)
    ensures Ranked(Pick(s, these, keep))
  {
    hide Precedes;
    if s != [] {
      PickRanked(s[1..], these, keep);
      var rest := Pick(s[1..], these, keep);
      forall n | n in rest ensures Precedes(s[0], n) {
        var i :| 0 <= i < |s[1..]| && s[1..][i] == n;
        assert s[i + 1] == n;
      }
      if (s[0] in these) == keep { RankedCons(s[0], rest); }
    }
  }

  lemma RankedCons(n: string, s: seq<string>)
    requires Ranked(s) && forall m | m in s :: Precedes(n, m)
    ensures Ranked([n] + s)
  {
    hide Precedes;
  }

  lemma RankAt(i: nat)
    requires i < 7
    ensures |AREA_LINK_ORDER| == 7 && Rank(AREA_LINK_ORDER[i]) == i
  {
  }

  lemma KnownHasRank(n: string)
    ensures n in AREA_LINK_ORDER <==> Rank(n) < 7
  {
    if n in AREA_LINK_ORDER {
      var i :| 0 <= i < |AREA_LINK_ORDER| && AREA_LINK_ORDER[i] == n;
      hide Rank;
      RankAt(i);
    }
  }

  lemma KnownRanks()
    ensures Ranked(AREA_LINK_ORDER)
    ensures forall n :: n in AREA_LINK_ORDER <==> Rank(n) < 7
  {
    hide Rank, AREA_LINK_ORDER;
    forall n ensures n in AREA_LINK_ORDER <==> Rank(n) < 7 { KnownHasRank(n); }
    RankAt(0);
    forall i | 0 <= i < |AREA_LINK_ORDER| ensures Rank(AREA_LINK_ORDER[i]) == i { RankAt(i); }
  }

  /** Areas are linked in the order of the known ones, and the others behind them by their names. */
  lemma LinkOrder(names: seq<string>)
    ensures var r := OrderLinkAreaNames(names);
      forall i, j | 0 <= i < j < |r| ::
        Rank(r[i]) < Rank(r[j]) || (Rank(r[i]) == Rank(r[j]) == 7 && Earlier(r[i], r[j]))
  {
    hide CanonicalNames, Before, Earlier, Rank, AREA_LINK_ORDER;
    var present := Distinct(CanonicalNames(names));
    var known, others := Pick(AREA_LINK_ORDER, present, true), SortNames(Pick(present, AREA_LINK_ORDER, false));
    KnownRanks();
    PickRanked(AREA_LINK_ORDER, present, true);
    SortSorts(Pick(present, AREA_LINK_ORDER, false));
    var r := known + others;
    forall i, j | 0 <= i < j < |r|
      ensures Rank(r[i]) < Rank(r[j]) || (Rank(r[i]) == Rank(r[j]) == 7 && Earlier(r[i], r[j]))
    {
      BeforeIsEarlier(r[i], r[j]);
      if i < |known| { assert r[i] in known; } else { assert r[i] in others; }
      if j < |known| { assert r[j] in known; } else { assert r[j] in others; }
      AtMost(r[i]);
      AtMost(r[j]);
    }
  }

  lemma AtMost(n: string)
    ensures Rank(n) <= 7
  {
  }
}
