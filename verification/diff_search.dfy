// Where the search of diff ends: at the first place, in the order in which it
// looks, where three lines in a row agree.

module DiffSearch {
  import opened EditScripts

  // Three lines in a row are there and equal.
  ghost predicate Same3(s: seq<Line>, i: nat, t: seq<Line>, j: nat) {
    i + 3 <= |s| && j + 3 <= |t| && s[i] == t[j] && s[i + 1] == t[j + 1] && s[i + 2] == t[j + 2]
  }

  lemma SameEither(s: seq<Line>, i: nat, t: seq<Line>, j: nat)
    ensures Same3(s, i, t, j) == Same3(t, j, s, i)
  {}

  // Three equal lines after i lines of a and j lines of b are seen only while
  // both files last that long: when one of them ends the search is given up.
  ghost predicate InReach(a: seq<Line>, b: seq<Line>, i: nat, j: nat) {
    Same3(a, i, b, j) && if i < j then j + 2 <= |a| else i + 3 <= |b|
  }

  function Max(i: nat, j: nat): nat {
    if i < j then j else i
  }

  // The order of the search: by the longer of the two ways; then those with a
  // longer way in b, from the front of a; then the others, from the front of b.
  predicate Before(i: nat, j: nat, i': nat, j': nat) {
    || Max(i, j) < Max(i', j')
    || (Max(i, j) == Max(i', j') && if i < j then i' >= j' || i < i' else i' >= j' && j < j')
  }

  ghost predicate FirstMeeting(a: seq<Line>, b: seq<Line>, i: nat, j: nat) {
    InReach(a, b, i, j) && forall i': nat, j': nat :: InReach(a, b, i', j') ==> !Before(i', j', i, j)
  }

  ghost predicate NoMeeting(a: seq<Line>, b: seq<Line>) {
    forall i: nat, j: nat :: !InReach(a, b, i, j)
  }

  lemma MeetingUnique(a: seq<Line>, b: seq<Line>, i: nat, j: nat, i': nat, j': nat)
    requires FirstMeeting(a, b, i, j) && FirstMeeting(a, b, i', j')
    ensures i == i' && j == j'
  {
    assert !Before(i, j, i', j') && !Before(i', j', i, j);
  }

  // A file that has ended meets nothing.
  lemma EndedMeetsNothing(a: seq<Line>, b: seq<Line>)
    requires a == [] || b == []
    ensures NoMeeting(a, b)
  {}

  // ---------------------------------------------------------------------
  // The rounds of the search

  // Nothing within r lines agrees.
  ghost predicate NoneWithin(a: seq<Line>, b: seq<Line>, r: nat) {
    forall i: nat, j: nat :: i <= r && j <= r ==> !Same3(a, i, b, j)
  }

  // None of the first n lines of s and line k of t begin three equal lines.
  ghost predicate NoneFrom(s: seq<Line>, n: nat, t: seq<Line>, k: nat) {
    forall i: nat :: i < n ==> !Same3(s, i, t, k)
  }

  // The window s is what has been read of a.
  ghost predicate Seen(s: seq<Line>, a: seq<Line>, n: nat) {
    s <= a && (|s| == n || (|s| < n && s == a))
  }

  // In round r line k = r + 1 of b is compared with all of the window of a.
  lemma FirstHalf(a: seq<Line>, b: seq<Line>, s: seq<Line>, t: seq<Line>, r: nat, i: nat, k: nat)
    requires NoneWithin(a, b, r) && Seen(s, a, r + 3) && (r > 0 ==> |s| == r + 3) && t <= b && |t| == r + 4
    requires k == r + 1 && Same3(s, i, t, k) && NoneFrom(s, i, t, k)
    ensures FirstMeeting(a, b, i, k)
  {
    assert Same3(a, i, b, k) && i <= r;
    forall i': nat, j': nat | InReach(a, b, i', j') ensures !Before(i', j', i, k) {
      assert Max(i', j') > r;
      if j' == k && i' < i {
        assert Same3(s, i', t, k);
      }
    }
  }

  lemma FirstHalfNone(a: seq<Line>, b: seq<Line>, s: seq<Line>, t: seq<Line>, r: nat, k: nat)
    requires Seen(s, a, r + 3) && t <= b && |t| == r + 4 && k == r + 1 && NoneFrom(s, |s|, t, k)
    ensures NoneFrom(a, k, b, k)
  {
    forall i: nat | i < k ensures !Same3(a, i, b, k) {
      assert Same3(a, i, b, k) ==> Same3(s, i, t, k);
    }
  }

  // Then line k of a with all of the window of b.
  lemma SecondHalf(a: seq<Line>, b: seq<Line>, s: seq<Line>, t: seq<Line>, r: nat, j: nat, k: nat)
    requires NoneWithin(a, b, r) && s <= a && |s| == r + 4 && t <= b && |t| == r + 4 && k == r + 1
    requires NoneFrom(a, k, b, k) && Same3(t, j, s, k) && NoneFrom(t, j, s, k)
    ensures FirstMeeting(a, b, k, j)
  {
    assert Same3(a, k, b, j) && j <= k;
    forall i': nat, j': nat | InReach(a, b, i', j') ensures !Before(i', j', k, j) {
      assert Max(i', j') > r;
      if i' == k && j' < j {
        assert Same3(t, j', s, k);
      }
    }
  }

  lemma RoundOver(a: seq<Line>, b: seq<Line>, s: seq<Line>, t: seq<Line>, r: nat, k: nat)
    requires NoneWithin(a, b, r) && s <= a && |s| == r + 4 && t <= b && |t| == r + 4 && k == r + 1
    requires NoneFrom(a, k, b, k) && NoneFrom(t, |t|, s, k)
    ensures NoneWithin(a, b, k)
  {
    forall i: nat, j: nat | i <= k && j <= k ensures !Same3(a, i, b, j) {
      if i == k {
        assert Same3(a, k, b, j) ==> Same3(t, j, s, k);
      }
    }
  }

  // The second file has ended.
  lemma SecondEnds(a: seq<Line>, b: seq<Line>, r: nat)
    requires NoneWithin(a, b, r) && |b| <= r + 3
    ensures NoMeeting(a, b)
  {
    forall i: nat, j: nat ensures !InReach(a, b, i, j) {
      assert InReach(a, b, i, j) ==> Max(i, j) > r;
    }
  }

  // The first file has ended.
  lemma FirstEnds(a: seq<Line>, b: seq<Line>, r: nat, k: nat)
    requires NoneWithin(a, b, r) && |a| <= r + 3 && k == r + 1 && NoneFrom(a, k, b, k)
    ensures NoMeeting(a, b)
  {
    forall i: nat, j: nat ensures !InReach(a, b, i, j) {
      assert InReach(a, b, i, j) ==> Max(i, j) > r;
      assert j == k && i < k ==> !Same3(a, i, b, j);
    }
  }

  // ---------------------------------------------------------------------
  // The output

  // The hunk for i lines of a and j lines of b, after p and q lines.
  function HunkFor(a: seq<Line>, b: seq<Line>, p: nat, i: nat, q: nat, j: nat): (h: Hunk)
    requires p + i <= |a| && q + j <= |b| && (i > 0 || j > 0)
    ensures Start1(h.cmd) == p && End1(h.cmd) == p + i && Start2(h.cmd) == q && End2(h.cmd) == q + j
    ensures |h.gone| == i && |h.added| == j
  {
    Hunk(Heading(p, i, q, j), a[p..p + i], b[q..q + j])
  }

  // That hunk, if there is anything in it.
  function HunksFor(a: seq<Line>, b: seq<Line>, p: nat, i: nat, q: nat, j: nat): seq<Hunk>
    requires p + i <= |a| && q + j <= |b|
  {
    if i > 0 || j > 0 then [HunkFor(a, b, p, i, q, j)] else []
  }

  lemma OneHunk(a: seq<Line>, b: seq<Line>, p: nat, i: nat, q: nat, j: nat)
    requires p + i <= |a| && q + j <= |b| && (i > 0 || j > 0)
    ensures HunksFor(a, b, p, i, q, j) == [HunkFor(a, b, p, i, q, j)]
  {}

  // The files differ where a hunk begins.
  predicate Differs(a: seq<Line>, b: seq<Line>) {
    a == [] || b == [] || a[0] != b[0]
  }

  // What follows the line pairs before a hunk.
  function After(s: seq<Line>, p: int): seq<Line> {
    if 0 <= p <= |s| then s[p..] else []
  }

  // A hunk begins where the files differ and ends where they first meet again,
  // or takes the rest of both when they do not.
  ghost predicate Least(h: Hunk, a: seq<Line>, b: seq<Line>) {
    var a', b' := After(a, Start1(h.cmd)), After(b, Start2(h.cmd));
    && Honest(h, a, b) && Differs(a', b')
    && h.cmd == Heading(Start1(h.cmd), |h.gone|, Start2(h.cmd), |h.added|)
    && (|| FirstMeeting(a', b', |h.gone|, |h.added|)
        || (NoMeeting(a', b') && End1(h.cmd) == |a| && End2(h.cmd) == |b|))
  }

  // The two hunks that diff prints.
  lemma MetIsLeast(a: seq<Line>, b: seq<Line>, p: nat, i: nat, q: nat, j: nat)
    requires p <= |a| && q <= |b| && Differs(a[p..], b[q..]) && FirstMeeting(a[p..], b[q..], i, j)
    ensures p + i <= |a| && q + j <= |b| && (i > 0 || j > 0) && Least(HunkFor(a, b, p, i, q, j), a, b)
  {
    var h := HunkFor(a, b, p, i, q, j);
    assert i > 0 ==> h.gone[0] == a[p];
  }

  lemma LastIsLeast(a: seq<Line>, b: seq<Line>, p: nat, q: nat)
    requires p <= |a| && q <= |b| && Differs(a[p..], b[q..]) && NoMeeting(a[p..], b[q..]) && (p < |a| || q < |b|)
    ensures Least(HunkFor(a, b, p, |a| - p, q, |b| - q), a, b)
  {
    var h := HunkFor(a, b, p, |a| - p, q, |b| - q);
    assert p < |a| ==> h.gone[0] == a[p];
  }

  // What the heading says, in line numbers from 1 on: lines from2 to to2 of b
  // are added, lines from1 to to1 of a are gone.
  lemma HeadingReads(h: Hunk, a: seq<Line>, b: seq<Line>)
    requires Least(h, a, b)
    ensures match h.cmd
      case Append(at1, from2, to2) =>
        0 <= at1 <= |a| && 1 <= from2 <= to2 <= |b| && h.gone == [] && h.added == b[from2 - 1..to2]
      case Delete(from1, to1, at2) =>
        1 <= from1 <= to1 <= |a| && 0 <= at2 <= |b| && h.gone == a[from1 - 1..to1] && h.added == []
      case Change(from1, to1, from2, to2) =>
        && 1 <= from1 <= to1 <= |a| && 1 <= from2 <= to2 <= |b|
        && h.gone == a[from1 - 1..to1] && h.added == b[from2 - 1..to2]
  {
    assert h.gone != [] || h.added != [];
  }

  ghost predicate AllLeast(hunks: seq<Hunk>, a: seq<Line>, b: seq<Line>) {
    forall i :: 0 <= i < |hunks| ==> Least(hunks[i], a, b)
  }

  lemma OneMoreLeast(hunks: seq<Hunk>, h: Hunk, a: seq<Line>, b: seq<Line>)
    requires AllLeast(hunks, a, b) && Least(h, a, b)
    ensures AllLeast(hunks + [h], a, b)
  {
    hide Least;
    forall i | 0 <= i < |hunks + [h]| ensures Least((hunks + [h])[i], a, b) {
      assert i < |hunks| ==> Least(hunks[i], a, b);
    }
  }

  // The hunks account for the two files from lines p and q on, and are least.
  ghost predicate Follows(hunks: seq<Hunk>, a: seq<Line>, b: seq<Line>, p: nat, q: nat) {
    && p <= |a| && q <= |b|
    && if hunks == [] then a[p..] == b[q..]
       else
         var h := hunks[0];
         && Least(h, a, b) && 0 <= Start1(h.cmd) - p == Start2(h.cmd) - q
         && a[p..Start1(h.cmd)] == b[q..Start2(h.cmd)]
         && Follows(hunks[1..], a, b, End1(h.cmd), End2(h.cmd))
  }

  lemma Gap(s: seq<Line>, p0: nat, p: nat, e: nat)
    requires p0 <= p <= e <= |s|
    ensures s[p0..e] == s[p0..p] + s[p..e]
  {}

  lemma GapBefore(hunks: seq<Hunk>, a: seq<Line>, b: seq<Line>, p0: nat, q0: nat, p: nat, q: nat)
    requires Follows(hunks, a, b, p, q) && 0 <= p - p0 == q - q0 && a[p0..p] == b[q0..q]
    ensures Follows(hunks, a, b, p0, q0)
  {
    hide Least;
    if hunks == [] {
      Gap(a, p0, p, |a|);
      Gap(b, q0, q, |b|);
    } else {
      LeastBounds(hunks[0], a, b);
      Gap(a, p0, p, Start1(hunks[0].cmd));
      Gap(b, q0, q, Start2(hunks[0].cmd));
    }
  }

  lemma LeastBounds(h: Hunk, a: seq<Line>, b: seq<Line>)
    requires Least(h, a, b)
    ensures 0 <= Start1(h.cmd) <= End1(h.cmd) <= |a| && 0 <= Start2(h.cmd) <= End2(h.cmd) <= |b|
  {}

  lemma HunkFollows(h: Hunk, tail: seq<Hunk>, a: seq<Line>, b: seq<Line>)
    requires Least(h, a, b) && End1(h.cmd) >= 0 && End2(h.cmd) >= 0 && Start1(h.cmd) >= 0 && Start2(h.cmd) >= 0
    requires Follows(tail, a, b, End1(h.cmd), End2(h.cmd))
    ensures Follows([h] + tail, a, b, Start1(h.cmd), Start2(h.cmd))
  {
    hide Least;
    LeastBounds(h, a, b);
    assert ([h] + tail)[1..] == tail;
    assert a[Start1(h.cmd)..Start1(h.cmd)] == [] && b[Start2(h.cmd)..Start2(h.cmd)] == [];
  }

  lemma {:induction false} ReachesFollows(hunks: seq<Hunk>, tail: seq<Hunk>, a: seq<Line>, b: seq<Line>, p: nat, q: nat)
    requires Reaches(hunks, a, b, p, q) && AllLeast(hunks, a, b) && Follows(tail, a, b, p, q)
    ensures Follows(hunks + tail, a, b, 0, 0)
    decreases |hunks|
  {
    hide Least, Follows;
    if hunks == [] {
      assert hunks + tail == tail && a[0..p] == a[..p] && b[0..q] == b[..q];
      GapBefore(tail, a, b, 0, 0, p, q);
    } else {
      var n := |hunks| - 1;
      var h := hunks[n];
      GapBefore(tail, a, b, End1(h.cmd), End2(h.cmd), p, q);
      HunkFollows(h, tail, a, b);
      ReachesFollows(hunks[..n], [h] + tail, a, b, Start1(h.cmd), Start2(h.cmd));
      assert hunks[..n] + ([h] + tail) == hunks + tail;
    }
  }

  // Equal lines up to e: those d lines on are equal.
  lemma EqualHeads(a: seq<Line>, b: seq<Line>, p: nat, q: nat, e1: nat, e2: nat, d: nat)
    requires p + d < e1 <= |a| && q + d < e2 <= |b|
    ensures a[p..e1] == b[q..e2] ==> !Differs(After(a, p + d), After(b, q + d))
  {
    assert a[p + d] == a[p..e1][d] && b[q + d] == b[q..e2][d];
  }

  // Equal lines up to the hunk, different ones where it begins.
  lemma SameStart(h: Hunk, h': Hunk, a: seq<Line>, b: seq<Line>, p: nat, q: nat)
    requires p <= |a| && q <= |b| && Least(h, a, b) && Least(h', a, b)
    requires 0 <= Start1(h.cmd) - p == Start2(h.cmd) - q && a[p..Start1(h.cmd)] == b[q..Start2(h.cmd)]
    requires 0 <= Start1(h'.cmd) - p == Start2(h'.cmd) - q && a[p..Start1(h'.cmd)] == b[q..Start2(h'.cmd)]
    ensures Start1(h.cmd) >= Start1(h'.cmd)
  {
    LeastBounds(h', a, b);
    if Start1(h.cmd) < Start1(h'.cmd) {
      EqualHeads(a, b, p, q, Start1(h'.cmd), Start2(h'.cmd), Start1(h.cmd) - p);
    }
  }

  lemma SameHunk(h: Hunk, h': Hunk, a: seq<Line>, b: seq<Line>)
    requires Least(h, a, b) && Least(h', a, b) && Start1(h.cmd) == Start1(h'.cmd) && Start2(h.cmd) == Start2(h'.cmd)
    ensures h == h'
  {
    var a', b' := After(a, Start1(h.cmd)), After(b, Start2(h.cmd));
    if FirstMeeting(a', b', |h.gone|, |h.added|) {
      MeetingUnique(a', b', |h.gone|, |h.added|, |h'.gone|, |h'.added|);
    }
  }

  // Where a hunk follows, the files are not equal.
  lemma HunkTells(h: Hunk, a: seq<Line>, b: seq<Line>, p: nat, q: nat)
    requires p <= |a| && q <= |b| && Least(h, a, b)
    requires 0 <= Start1(h.cmd) - p == Start2(h.cmd) - q
    ensures a[p..] != b[q..]
  {
    LeastBounds(h, a, b);
    if Start1(h.cmd) < |a| && Start2(h.cmd) < |b| {
      EqualHeads(a, b, p, q, |a|, |b|, Start1(h.cmd) - p);
    } else {
      assert |a[p..]| == |a| - p && |b[q..]| == |b| - q;
    }
  }

  // There is only one such output.
  lemma {:induction false} OneOutput(hunks: seq<Hunk>, hunks': seq<Hunk>, a: seq<Line>, b: seq<Line>, p: nat, q: nat)
    requires Follows(hunks, a, b, p, q) && Follows(hunks', a, b, p, q)
    ensures hunks == hunks'
    decreases |hunks|
  {
    hide Least;
    if hunks == [] || hunks' == [] {
      if hunks != [] {
        HunkTells(hunks[0], a, b, p, q);
      } else if hunks' != [] {
        HunkTells(hunks'[0], a, b, p, q);
      }
    } else {
      LeastBounds(hunks[0], a, b);
      SameStart(hunks[0], hunks'[0], a, b, p, q);
      SameStart(hunks'[0], hunks[0], a, b, p, q);
      SameHunk(hunks[0], hunks'[0], a, b);
      OneOutput(hunks[1..], hunks'[1..], a, b, End1(hunks[0].cmd), End2(hunks[0].cmd));
      assert hunks == [hunks[0]] + hunks[1..] && hunks' == [hunks'[0]] + hunks'[1..];
    }
  }

  // The output of diff is the one edit script of the two files whose hunks are
  // least.
  lemma OneScript(hunks: seq<Hunk>, hunks': seq<Hunk>, a: seq<Line>, b: seq<Line>)
    requires Reaches(hunks, a, b, |a|, |b|) && AllLeast(hunks, a, b)
    requires Reaches(hunks', a, b, |a|, |b|) && AllLeast(hunks', a, b)
    ensures hunks == hunks'
  {
    ReachesFollows(hunks, [], a, b, |a|, |b|);
    ReachesFollows(hunks', [], a, b, |a|, |b|);
    assert hunks + [] == hunks && hunks' + [] == hunks';
    OneOutput(hunks, hunks', a, b, 0, 0);
  }
}
