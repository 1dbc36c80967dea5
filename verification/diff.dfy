// diff: two files are read through windows of lines.  Where they differ, both
// windows grow until three lines in a row agree; what lies before is printed
// as a hunk, and lines read too far are put aside to be read again.

module EditScripts {
  // A line as it is read: up to 128 characters and a newline.
  type Line = string

  // The heading of a hunk, with line numbers counted from 1.
  datatype Command =
    | Append(at1: nat, from2: nat, to2: nat)
    | Delete(from1: nat, to1: nat, at2: nat)
    | Change(from1: nat, to1: nat, from2: nat, to2: nat)

  // The heading for len1 lines after line cnt1 and len2 lines after line cnt2.
  function Heading(cnt1: nat, len1: nat, cnt2: nat, len2: nat): (c: Command)
    requires len1 > 0 || len2 > 0
    ensures Start1(c) == cnt1 && End1(c) == cnt1 + len1 && Start2(c) == cnt2 && End2(c) == cnt2 + len2
  {
    if len1 == 0 then Append(cnt1, cnt2 + 1, cnt2 + len2)
    else if len2 == 0 then Delete(cnt1 + 1, cnt1 + len1, cnt2)
    else Change(cnt1 + 1, cnt1 + len1, cnt2 + 1, cnt2 + len2)
  }

  // The lines after "< " and the lines after "> ".
  datatype Hunk = Hunk(cmd: Command, gone: seq<Line>, added: seq<Line>)

  // What a heading says about the first file: lines Start1 + 1 to End1 go.
  function Start1(c: Command): int {
    match c
    case Append(at1, _, _) => at1
    case Delete(from1, _, _) => from1 - 1
    case Change(from1, _, _, _) => from1 - 1
  }

  function End1(c: Command): int {
    match c
    case Append(at1, _, _) => at1
    case Delete(_, to1, _) => to1
    case Change(_, to1, _, _) => to1
  }

  // And about the second file: lines Start2 + 1 to End2 come.
  function Start2(c: Command): int {
    match c
    case Append(_, from2, _) => from2 - 1
    case Delete(_, _, at2) => at2
    case Change(_, _, from2, _) => from2 - 1
  }

  function End2(c: Command): int {
    match c
    case Append(_, _, to2) => to2
    case Delete(_, _, at2) => at2
    case Change(_, _, _, to2) => to2
  }

  // The part of s from i to j, as far as there is one.
  function Part<T>(s: seq<T>, i: int, j: int): seq<T> {
    if 0 <= i <= j <= |s| then s[i..j] else []
  }

  // Patching the first p lines, from the last hunk to the first, so that the
  // line numbers of the hunks to come stay right.
  function Patched(hunks: seq<Hunk>, a: seq<Line>, p: int): seq<Line> {
    if hunks == [] then Part(a, 0, p)
    else
      var h := hunks[|hunks| - 1];
      Patched(hunks[..|hunks| - 1], a, Start1(h.cmd)) + h.added + Part(a, End1(h.cmd), p)
  }

  // The same backwards: from the second file to the first.
  function Unpatched(hunks: seq<Hunk>, b: seq<Line>, q: int): seq<Line> {
    if hunks == [] then Part(b, 0, q)
    else
      var h := hunks[|hunks| - 1];
      Unpatched(hunks[..|hunks| - 1], b, Start2(h.cmd)) + h.gone + Part(b, End2(h.cmd), q)
  }

  // A hunk that says the truth about two files, and is not empty.
  ghost predicate Honest(h: Hunk, a: seq<Line>, b: seq<Line>) {
    && 0 <= Start1(h.cmd) <= End1(h.cmd) <= |a| && h.gone == a[Start1(h.cmd)..End1(h.cmd)]
    && 0 <= Start2(h.cmd) <= End2(h.cmd) <= |b| && h.added == b[Start2(h.cmd)..End2(h.cmd)]
    && (h.gone != [] || h.added != [])
  }

  // The hunks account for the first p lines of a and the first q of b.
  ghost predicate Reaches(hunks: seq<Hunk>, a: seq<Line>, b: seq<Line>, p: nat, q: nat) {
    && p <= |a| && q <= |b|
    && if hunks == [] then p == q && a[..p] == b[..q]
       else
         var h := hunks[|hunks| - 1];
         && Honest(h, a, b) && 0 <= p - End1(h.cmd) == q - End2(h.cmd)
         && a[End1(h.cmd)..p] == b[End2(h.cmd)..q]
         && Reaches(hunks[..|hunks| - 1], a, b, Start1(h.cmd), Start2(h.cmd))
  }

  // An equal pair of lines takes the hunks one line further.
  lemma ReachesNext(hunks: seq<Hunk>, a: seq<Line>, b: seq<Line>, p: nat, q: nat)
    requires Reaches(hunks, a, b, p, q) && p < |a| && q < |b| && a[p] == b[q]
    ensures Reaches(hunks, a, b, p + 1, q + 1)
  {
    if hunks == [] {
      assert a[..p + 1] == a[..p] + [a[p]];
      assert b[..q + 1] == b[..q] + [b[q]];
    } else {
      var h := hunks[|hunks| - 1];
      assert a[End1(h.cmd)..p + 1] == a[End1(h.cmd)..p] + [a[p]];
      assert b[End2(h.cmd)..q + 1] == b[End2(h.cmd)..q] + [b[q]];
    }
  }

  lemma ReachesHunk(hunks: seq<Hunk>, a: seq<Line>, b: seq<Line>, p: nat, q: nat, h: Hunk)
    requires Reaches(hunks, a, b, p, q) && Honest(h, a, b) && Start1(h.cmd) == p && Start2(h.cmd) == q
    ensures Reaches(hunks + [h], a, b, End1(h.cmd), End2(h.cmd))
  {
    assert (hunks + [h])[..|hunks + [h]| - 1] == hunks;
  }

  // Patching follows the hunks, both ways.
  lemma {:induction false} ReachesPatch(hunks: seq<Hunk>, a: seq<Line>, b: seq<Line>, p: nat, q: nat)
    requires Reaches(hunks, a, b, p, q)
    ensures Patched(hunks, a, p) == b[..q] && Unpatched(hunks, b, q) == a[..p]
    decreases |hunks|
  {
    if hunks != [] {
      var h := hunks[|hunks| - 1];
      var s1, e1, s2, e2 := Start1(h.cmd), End1(h.cmd), Start2(h.cmd), End2(h.cmd);
      ReachesPatch(hunks[..|hunks| - 1], a, b, s1, s2);
      ThreeParts(a, s1, e1, p);
      ThreeParts(b, s2, e2, q);
    }
  }

  lemma ThreeParts(s: seq<Line>, i: nat, j: nat, k: nat)
    requires i <= j <= k <= |s|
    ensures s[..k] == s[..i] + s[i..j] + s[j..k]
  {}

  // A hunk after a common line keeps the hunks apart.
  lemma ApartHunk(hunks: seq<Hunk>, a: seq<Line>, b: seq<Line>, p: nat, q: nat, h: Hunk)
    requires Reaches(hunks, a, b, p, q) && Apart(hunks)
    requires hunks != [] ==>
      End1(hunks[|hunks| - 1].cmd) < Start1(h.cmd) && End2(hunks[|hunks| - 1].cmd) < Start2(h.cmd)
    ensures Apart(hunks + [h])
  {}

  // At least one common line lies between two hunks.
  ghost predicate Apart(hunks: seq<Hunk>) {
    forall i, j :: 0 <= i < j < |hunks| ==>
      End1(hunks[i].cmd) < Start1(hunks[j].cmd) && End2(hunks[i].cmd) < Start2(hunks[j].cmd)
  }

  // The hunk for the next len1 and len2 lines is right.
  lemma HunkAdded(hunks: seq<Hunk>, a: seq<Line>, b: seq<Line>, p: nat, len1: nat, q: nat, len2: nat)
    requires Reaches(hunks, a, b, p, q) && Apart(hunks) && p + len1 <= |a| && q + len2 <= |b| && (len1 > 0 || len2 > 0)
    requires hunks != [] ==> End1(hunks[|hunks| - 1].cmd) < p && End2(hunks[|hunks| - 1].cmd) < q
    ensures var h := Hunk(Heading(p, len1, q, len2), a[p..p + len1], b[q..q + len2]);
      Reaches(hunks + [h], a, b, p + len1, q + len2) && Apart(hunks + [h])
  {
    var h := Hunk(Heading(p, len1, q, len2), a[p..p + len1], b[q..q + len2]);
    assert len1 > 0 ==> h.gone[0] == a[p];
    ReachesHunk(hunks, a, b, p, q, h);
    ApartHunk(hunks, a, b, p, q, h);
  }

  // What a complete, correct output is.
  ghost predicate EditScript(hunks: seq<Hunk>, a: seq<Line>, b: seq<Line>) {
    && (forall i :: 0 <= i < |hunks| ==> Honest(hunks[i], a, b))
    && Apart(hunks)
    && Patched(hunks, a, |a|) == b && Unpatched(hunks, b, |b|) == a
    && (hunks == [] <==> a == b)
  }

  lemma {:induction false} ReachesHonest(hunks: seq<Hunk>, a: seq<Line>, b: seq<Line>, p: nat, q: nat)
    requires Reaches(hunks, a, b, p, q)
    ensures forall i :: 0 <= i < |hunks| ==> Honest(hunks[i], a, b)
    decreases |hunks|
  {
    if hunks != [] {
      var h := hunks[|hunks| - 1];
      ReachesHonest(hunks[..|hunks| - 1], a, b, Start1(h.cmd), Start2(h.cmd));
    }
  }

  // Hunks that account for both files make an edit script.
  lemma ScriptComplete(hunks: seq<Hunk>, a: seq<Line>, b: seq<Line>)
    requires Reaches(hunks, a, b, |a|, |b|) && Apart(hunks) && (a == b ==> hunks == [])
    ensures EditScript(hunks, a, b)
  {
    ReachesPatch(hunks, a, b, |a|, |b|);
    ReachesHonest(hunks, a, b, |a|, |b|);
    assert a[..|a|] == a && b[..|b|] == b;
  }
}

module Diff {
  import opened Basics
  import opened EditScripts
  import opened DiffSearch

  // Chains of lines are sequences, pointers into the window are indices.
  class Window {
    ghost const lines: seq<Line>
    var bwin: seq<Line>
    var ewin: int
    var asides: seq<Line>
    var linecnt: nat
    // What has not been read from the file.
    var unread: seq<Line>

    // Window, lines put aside and unread lines are the rest of the file.
    ghost predicate Rest()
      reads this
    {
      linecnt <= |lines| && lines[linecnt..] == bwin + asides + unread
    }

    ghost predicate Valid()
      reads this
    {
      Rest() && ewin == |bwin| - 1
    }

    // The end is the last line, or unset when the whole window is to go.
    ghost predicate EndOk()
      reads this
    {
      ewin == NIL || ewin == |bwin| - 1
    }

    // How many lines a hunk takes from the window.
    ghost function Taken(): int
      reads this
    {
      if ewin == NIL then |bwin| else ewin
    }

    ghost predicate AtEnd()
      reads this
    {
      asides == [] && unread == []
    }

    constructor (file: seq<Line>)
      ensures Valid() && lines == file && linecnt == 0 && bwin == [] && ewin == NIL
    {
      lines := file;
      bwin, ewin, asides := [], NIL, [];
      linecnt := 0;
      unread := file;
    }

    // The first line of the window is done with.
    method Advance()
      requires Rest() && EndOk()
      modifies this`bwin, this`ewin, this`linecnt
      ensures old(bwin) == [] ==> bwin == [] && ewin == old(ewin) && linecnt == old(linecnt)
      ensures old(bwin) != [] ==>
        && linecnt == old(linecnt) + 1
        && (old(ewin) == 0 ==> bwin == [] && ewin == NIL)
        && (old(ewin) != 0 ==> bwin == old(bwin)[1..] && ewin == if old(ewin) == NIL then NIL else old(ewin) - 1)
      ensures Rest()
    {
      if bwin != [] {
        assert lines[linecnt..][1..] == bwin[1..] + asides + unread;
        if ewin == 0 {
          bwin, ewin := [], NIL;
        } else {
          bwin, ewin := bwin[1..], if ewin == NIL then NIL else ewin - 1;
        }
        linecnt := linecnt + 1;
        assert lines[linecnt..] == lines[old(linecnt)..][1..];
      }
    }

    // The lines after line l of the window are put aside.
    method Aside(l: nat)
      requires Valid() && l < |bwin|
      modifies this
      ensures Valid() && linecnt == old(linecnt) && unread == old(unread)
      ensures bwin == old(bwin)[..l + 1] && asides == old(bwin)[l + 1..] + old(asides)
    {
      if l + 1 < |bwin| {
        asides := bwin[l + 1..] + asides;
        bwin := bwin[..l + 1];
        ewin := l;
      }
    }

    // One more line for the window, if there is one.
    method Next() returns (l: int)
      requires Valid()
      modifies this
      ensures Valid() && linecnt == old(linecnt)
      ensures l == NIL <==> old(AtEnd())
      ensures l == NIL ==> bwin == old(bwin) && AtEnd()
      ensures l != NIL ==>
        && l == |old(bwin)| && bwin == old(bwin) + [lines[linecnt + |old(bwin)|]]
        && |asides| + |unread| == |old(asides)| + |old(unread)| - 1
    {
      if asides != [] {
        bwin := bwin + [asides[0]];
        asides := asides[1..];
      } else if unread != [] {
        bwin := bwin + [unread[0]];
        unread := unread[1..];
      } else {
        return NIL;
      }
      ewin := |bwin| - 1;
      l := ewin;
      assert lines[linecnt..][|old(bwin)|] == bwin[|old(bwin)|];
    }

    // Print and drop the lines before the end of the window.
    method Update() returns (out: seq<Line>)
      requires Rest() && EndOk()
      modifies this`bwin, this`ewin, this`linecnt
      ensures Rest()
      ensures var n := old(Taken());
        && linecnt == old(linecnt) + n && out == old(bwin)[..n] == lines[old(linecnt)..linecnt]
        && bwin == old(bwin)[n..]
        && ewin == if old(ewin) == NIL then NIL else 0
    {
      out := [];
      ghost var n := Taken();
      assert lines[linecnt..][..n] == bwin[..n];
      while bwin != [] && ewin != 0
        invariant Rest() && |out| <= n && out == old(bwin)[..|out|] && bwin == old(bwin)[|out|..]
        invariant linecnt == old(linecnt) + |out|
        invariant ewin == if old(ewin) == NIL then NIL else n - |out|
        decreases |bwin|
      {
        out := out + [bwin[0]];
        Advance();
      }
    }

    // The number of lines before the end of the window.
    method WLen() returns (cnt: nat)
      requires EndOk()
      ensures cnt == Taken()
    {
      cnt := 0;
      while cnt != |bwin| && cnt != ewin
        invariant cnt <= |bwin| && (ewin != NIL ==> cnt <= ewin)
      {
        cnt := cnt + 1;
      }
    }
  }

  method Equal3(s: seq<Line>, l1: nat, t: seq<Line>, l2: nat) returns (r: bool)
    requires l1 <= |s| && l2 <= |t|
    ensures r <==> Same3(s, l1, t, l2)
  {
    var i := 0;
    while i < 3 && l1 + i < |s| && l2 + i < |t|
      invariant i <= 3 && l1 + i <= |s| && l2 + i <= |t|
      invariant (i > 0 ==> s[l1] == t[l2]) && (i > 1 ==> s[l1 + 1] == t[l2 + 1]) && (i > 2 ==> s[l1 + 2] == t[l2 + 2])
    {
      if s[l1 + i] != t[l2 + i] {
        return false;
      }
      i := i + 1;
    }
    return i == 3;
  }

  // The first line of the window from which three equal line b of the other.
  method FindSame3(s: seq<Line>, t: seq<Line>, b: nat) returns (ll: int)
    requires 0 < |s| && b <= |t|
    ensures ll == NIL || (0 <= ll < |s| && Same3(s, ll, t, b))
    ensures if ll == NIL then NoneFrom(s, |s|, t, b) else NoneFrom(s, ll, t, b)
  {
    ll := 0;
    while ll < |s|
      invariant 0 <= ll <= |s|
      invariant NoneFrom(s, ll, t, b)
    {
      var same := Equal3(s, ll, t, b);
      if same {
        return;
      }
      ll := ll + 1;
    }
    return NIL;
  }

  class Comparison {
    const f1: Window
    const f2: Window
    var diffs: nat
    var printed: seq<Hunk>

    // The hunks printed so far account for the lines done with.
    ghost predicate Valid()
      reads this, f1, f2
    {
      && f1 != f2 && f1.Valid() && f2.Valid() && diffs == |printed|
      && Reaches(printed, f1.lines, f2.lines, f1.linecnt, f2.linecnt) && Apart(printed)
      && (f1.lines == f2.lines ==> printed == [])
    }

    // What is left of the files.
    ghost function RestA(): seq<Line>
      requires f1.Rest()
      reads this, f1
    {
      f1.lines[f1.linecnt..]
    }

    ghost function RestB(): seq<Line>
      requires f2.Rest()
      reads this, f2
    {
      f2.lines[f2.linecnt..]
    }

    // Every hunk printed is least.
    ghost predicate Shortest()
      reads this, f1, f2
    {
      AllLeast(printed, f1.lines, f2.lines)
    }

    constructor (a: seq<Line>, b: seq<Line>)
      ensures Valid() && fresh(f1) && fresh(f2) && f1.lines == a && f2.lines == b
      ensures f1.linecnt == 0 && f2.linecnt == 0 && printed == [] && f1.bwin == [] && f2.bwin == []
    {
      f1 := new Window(a);
      f2 := new Window(b);
      diffs := 0;
      printed := [];
    }

    // The last hunk ends before the line pair at hand.
    ghost predicate Clear()
      reads this, f1, f2
    {
      printed != [] ==>
        var c := printed[|printed| - 1].cmd;
        End1(c) < f1.linecnt && End2(c) < f2.linecnt
    }

    // Print what the windows hold before their ends as one hunk.
    method Differ()
      requires f1 != f2 && f1.Rest() && f2.Rest() && f1.EndOk() && f2.EndOk()
      requires diffs == |printed| && Apart(printed) && Clear()
      requires Reaches(printed, f1.lines, f2.lines, f1.linecnt, f2.linecnt)
      requires f1.lines == f2.lines ==> printed == [] && f1.Taken() == 0 && f2.Taken() == 0
      modifies this, f1`bwin, f1`ewin, f1`linecnt, f2`bwin, f2`ewin, f2`linecnt
      ensures f1.Rest() && f2.Rest() && diffs == |printed| && Apart(printed)
      ensures Reaches(printed, f1.lines, f2.lines, f1.linecnt, f2.linecnt)
      ensures f1.lines == f2.lines ==> printed == []
      ensures f1.linecnt == old(f1.linecnt) + old(f1.Taken()) && f2.linecnt == old(f2.linecnt) + old(f2.Taken())
      ensures f1.bwin == old(f1.bwin)[old(f1.Taken())..] && f2.bwin == old(f2.bwin)[old(f2.Taken())..]
      ensures printed == old(printed) + HunksFor(f1.lines, f2.lines, old(f1.linecnt), old(f1.Taken()),
                                                 old(f2.linecnt), old(f2.Taken()))
      ensures f1.ewin == (if old(f1.ewin) == NIL then NIL else 0) && f2.ewin == (if old(f2.ewin) == NIL then NIL else 0)
    {
      var cnt1, cnt2 := f1.linecnt, f2.linecnt;
      var len1 := f1.WLen();
      var len2 := f2.WLen();
      if len1 != 0 || len2 != 0 {
        PrintHunk(cnt1, len1, cnt2, len2);
      }
    }

    method PrintHunk(cnt1: nat, len1: nat, cnt2: nat, len2: nat)
      requires f1 != f2 && f1.Rest() && f2.Rest() && f1.EndOk() && f2.EndOk()
      requires cnt1 == f1.linecnt && cnt2 == f2.linecnt && len1 == f1.Taken() && len2 == f2.Taken()
      requires diffs == |printed| && Apart(printed) && Clear() && (len1 > 0 || len2 > 0)
      requires Reaches(printed, f1.lines, f2.lines, cnt1, cnt2)
      modifies this, f1`bwin, f1`ewin, f1`linecnt, f2`bwin, f2`ewin, f2`linecnt
      ensures f1.Rest() && f2.Rest() && diffs == |printed| && Apart(printed)
      ensures Reaches(printed, f1.lines, f2.lines, f1.linecnt, f2.linecnt)
      ensures f1.linecnt == cnt1 + len1 && f2.linecnt == cnt2 + len2
      ensures printed == old(printed) + [HunkFor(f1.lines, f2.lines, cnt1, len1, cnt2, len2)]
      ensures f1.bwin == old(f1.bwin)[len1..] && f2.bwin == old(f2.bwin)[len2..]
      ensures f1.ewin == (if old(f1.ewin) == NIL then NIL else 0) && f2.ewin == (if old(f2.ewin) == NIL then NIL else 0)
    {
      hide Reaches, Apart, Heading;
      var h := Print(Heading(cnt1, len1, cnt2, len2), len1, len2);
      Record(h, cnt1, len1, cnt2, len2);
    }

    method Record(h: Hunk, ghost p: nat, ghost len1: nat, ghost q: nat, ghost len2: nat)
      requires diffs == |printed| && Reaches(printed, f1.lines, f2.lines, p, q) && Apart(printed)
      requires p + len1 <= |f1.lines| && q + len2 <= |f2.lines| && (len1 > 0 || len2 > 0)
      requires printed != [] ==> End1(printed[|printed| - 1].cmd) < p && End2(printed[|printed| - 1].cmd) < q
      requires h == Hunk(Heading(p, len1, q, len2), f1.lines[p..p + len1], f2.lines[q..q + len2])
      modifies this
      ensures diffs == |printed| && Reaches(printed, f1.lines, f2.lines, p + len1, q + len2) && Apart(printed)
      ensures printed == old(printed) + [h]
    {
      HunkAdded(printed, f1.lines, f2.lines, p, len1, q, len2);
      printed := printed + [h];
      diffs := diffs + 1;
    }

    // The lines of a hunk.
    method Print(cmd: Command, len1: nat, len2: nat) returns (h: Hunk)
      requires f1 != f2 && f1.Rest() && f2.Rest() && f1.EndOk() && f2.EndOk()
      requires len1 == f1.Taken() && len2 == f2.Taken()
      modifies f1`bwin, f1`ewin, f1`linecnt, f2`bwin, f2`ewin, f2`linecnt
      ensures f1.Rest() && f2.Rest()
      ensures f1.linecnt == old(f1.linecnt) + len1 && f2.linecnt == old(f2.linecnt) + len2
      ensures f1.bwin == old(f1.bwin)[len1..] && f2.bwin == old(f2.bwin)[len2..]
      ensures f1.ewin == (if old(f1.ewin) == NIL then NIL else 0) && f2.ewin == (if old(f2.ewin) == NIL then NIL else 0)
      ensures h == Hunk(cmd, f1.lines[old(f1.linecnt)..f1.linecnt], f2.lines[old(f2.linecnt)..f2.linecnt])
    {
      var gone := Listed(f1, len1);
      var added := Listed(f2, len2);
      h := Hunk(cmd, gone, added);
    }

    method Listed(f: Window, len: nat) returns (out: seq<Line>)
      requires f.Rest() && f.EndOk() && len == f.Taken()
      modifies f`bwin, f`ewin, f`linecnt
      ensures f.Rest() && f.linecnt == old(f.linecnt) + len && f.bwin == old(f.bwin)[len..]
      ensures f.ewin == if old(f.ewin) == NIL then NIL else 0
      ensures out == f.lines[old(f.linecnt)..f.linecnt]
    {
      out := [];
      if len != 0 {
        out := f.Update();
      }
    }

    // Two windows that start with the same line move past it.
    method Equal() returns (l1: int, l2: int)
      requires Valid() && |f1.bwin| == 1 && |f2.bwin| == 1 && f1.bwin[0] == f2.bwin[0]
      modifies this, f1, f2
      ensures Valid() && Clear() && Settled(l1, l2) && f1.linecnt == old(f1.linecnt) + 1 && printed == old(printed)
    {
      assert f1.lines[f1.linecnt..][0] == f2.lines[f2.linecnt..][0];
      ReachesNext(printed, f1.lines, f2.lines, f1.linecnt, f2.linecnt);
      f1.Advance();
      f2.Advance();
      l1, l2 := Fill();
    }

    // The next line of each file, into empty windows.
    method Fill() returns (l1: int, l2: int)
      requires Valid() && f1.bwin == [] && f2.bwin == [] && Clear()
      modifies f1, f2
      ensures Valid() && Clear() && Settled(l1, l2) && f1.linecnt == old(f1.linecnt)
    {
      assert |f1.lines[f1.linecnt..]| == |f1.asides| + |f1.unread|;
      assert |f2.lines[f2.linecnt..]| == |f2.asides| + |f2.unread|;
      l1 := f1.Next();
      l2 := f2.Next();
    }

    // The state of the main loop: one line in each window, or some file has
    // been read to its end, and nothing more agrees.  Files that are equal end
    // together.
    ghost predicate Settled(l1: int, l2: int)
      requires f1.Rest() && f2.Rest()
      reads this, f1, f2
    {
      && (l1 == NIL ==> f1.AtEnd()) && (l2 == NIL ==> f2.AtEnd())
      && (l1 != NIL && l2 != NIL ==> l1 == l2 == 0 && |f1.bwin| == 1 && |f2.bwin| == 1)
      && (l1 == NIL || l2 == NIL ==> Differs(RestA(), RestB()) && NoMeeting(RestA(), RestB()))
      && ((l1 == NIL || l2 == NIL) && f1.lines == f2.lines ==>
            f1.bwin == [] && f2.bwin == [] && f1.AtEnd() && f2.AtEnd())
    }

    // The lines at hand differ.  Read on until three lines in a row agree, and
    // print what comes before them; or until a file ends.
    method Search() returns (l1: int, l2: int)
      requires Valid() && Clear() && |f1.bwin| == 1 && |f2.bwin| == 1 && f1.bwin[0] != f2.bwin[0]
      modifies this, f1, f2
      ensures Valid()
      ensures l1 != NIL && l2 != NIL ==>
        && |f1.bwin| == 1 && |f2.bwin| == 1 && f1.bwin[0] == f2.bwin[0]
        && Met(old(RestA()), old(RestB()), old(printed), old(f1.linecnt), old(f2.linecnt))
      ensures l1 == NIL || l2 == NIL ==>
        && Clear() && Settled(l1, l2) && printed == old(printed)
        && f1.linecnt == old(f1.linecnt) && f2.linecnt == old(f2.linecnt)
    {
      hide Reaches, Apart, FirstMeeting, NoMeeting, NoneWithin;
      Heads();
      ghost var a, b := RestA(), RestB();
      l1, l2 := 0, 0;
      var more := f1.Next();
      more := f1.Next();
      more := f2.Next();
      more := f2.Next();
      AtStart();
      var r, done := 0, false;
      while !done
        invariant Valid() && f1.lines != f2.lines
        invariant !done ==> Clear() && Enough(r) && RestA() == a && RestB() == b && printed == old(printed)
        invariant !done ==> f1.linecnt == old(f1.linecnt) && f2.linecnt == old(f2.linecnt)
        invariant !done ==> NoneWithin(a, b, r) && Differs(a, b)
        invariant done && l1 != NIL && l2 != NIL ==>
          && |f1.bwin| == 1 && |f2.bwin| == 1 && f1.bwin[0] == f2.bwin[0]
          && Met(a, b, old(printed), old(f1.linecnt), old(f2.linecnt))
        invariant done && (l1 == NIL || l2 == NIL) ==>
          && Clear() && Settled(l1, l2) && printed == old(printed)
          && f1.linecnt == old(f1.linecnt) && f2.linecnt == old(f2.linecnt)
        decreases if done then 0 else 1 + |f2.asides| + |f2.unread|
      {
        l1, l2, done := Round(r);
        r := r + 1;
      }
    }

    // The windows begin with the rest of the files.
    lemma Heads()
      requires Valid() && |f1.bwin| == 1 && |f2.bwin| == 1 && f1.bwin[0] != f2.bwin[0]
      ensures f1.lines != f2.lines && Differs(RestA(), RestB()) && RestA() != [] && RestB() != []
      ensures RestA()[0] != RestB()[0]
    {
      assert RestA()[0] == f1.bwin[0] && RestB()[0] == f2.bwin[0];
      NotSame(f1.linecnt, f2.linecnt);
    }

    // Equal files have no hunk and end together.
    lemma NotSame(p: nat, q: nat)
      requires Valid() && p == f1.linecnt && q == f2.linecnt && f1.bwin != [] && f2.bwin != []
      requires f1.bwin[0] != f2.bwin[0]
      ensures f1.lines != f2.lines
    {
      assert f1.lines[f1.linecnt..][0] == f1.bwin[0] && f2.lines[f2.linecnt..][0] == f2.bwin[0];
    }

    // Before the first round.
    lemma AtStart()
      requires Valid() && RestA() != [] && RestB() != [] && RestA()[0] != RestB()[0]
      ensures NoneWithin(RestA(), RestB(), 0)
    {}

    // The search has ended where the two files first meet, and the hunk printed
    // ends there.
    ghost predicate Met(a: seq<Line>, b: seq<Line>, before: seq<Hunk>, p: nat, q: nat)
      requires f1.Rest() && f2.Rest()
      reads this, f1, f2
    {
      && p <= f1.linecnt && q <= f2.linecnt && (p < f1.linecnt || q < f2.linecnt)
      && FirstMeeting(a, b, f1.linecnt - p, f2.linecnt - q)
      && printed == before + [HunkFor(f1.lines, f2.lines, p, f1.linecnt - p, q, f2.linecnt - q)]
    }

    // Two more lines can be seen after line r of each window, or its file has
    // ended.
    ghost predicate Enough(r: nat)
      requires f1.Rest() && f2.Rest()
      reads this, f1, f2
    {
      && r < |f1.bwin| && r < |f2.bwin|
      && Seen(f1.bwin, RestA(), r + 3) && Seen(f2.bwin, RestB(), r + 3)
      && (r > 0 ==> |f1.bwin| == |f2.bwin| == r + 3)
    }

    // One round of the search: one more line of each file, and the next line
    // of each window against all lines of the other.
    method Round(r: nat) returns (l1: int, l2: int, done: bool)
      requires Valid() && Clear() && f1.lines != f2.lines && Enough(r)
      requires NoneWithin(RestA(), RestB(), r) && Differs(RestA(), RestB())
      modifies this, f1, f2
      ensures Valid()
      ensures !done ==> l1 != NIL && l2 != NIL && Clear() && Enough(r + 1) && NoneWithin(RestA(), RestB(), r + 1)
      ensures !done ==> |f2.asides| + |f2.unread| < old(|f2.asides| + |f2.unread|)
      ensures !done || l1 == NIL || l2 == NIL ==>
        && f1.linecnt == old(f1.linecnt) && f2.linecnt == old(f2.linecnt) && printed == old(printed)
      ensures done && l1 != NIL && l2 != NIL ==>
        && |f1.bwin| == 1 && |f2.bwin| == 1 && f1.bwin[0] == f2.bwin[0]
        && Met(old(RestA()), old(RestB()), old(printed), old(f1.linecnt), old(f2.linecnt))
      ensures done && (l1 == NIL || l2 == NIL) ==> Clear() && Settled(l1, l2)
    {
      hide Reaches, Apart, FirstMeeting, NoMeeting, NoneWithin, NoneFrom, Same3;
      ghost var a, b := RestA(), RestB();
      l1, done := 0, true;
      l2 := f2.Next();
      if l2 == NIL {
        SecondEnds(a, b, r);
        return;
      }
      var ll := FindSame3(f1.bwin, f2.bwin, r + 1);
      if ll != NIL {
        FirstHalf(a, b, f1.bwin, f2.bwin, r, ll, r + 1);
        Meet(ll, r + 1);
        return;
      }
      FirstHalfNone(a, b, f1.bwin, f2.bwin, r, r + 1);
      l1 := f1.Next();
      if l1 == NIL {
        FirstEnds(a, b, r, r + 1);
        return;
      }
      ll := FindSame3(f2.bwin, f1.bwin, r + 1);
      if ll != NIL {
        SecondHalf(a, b, f1.bwin, f2.bwin, r, ll, r + 1);
        SameEither(f2.bwin, ll, f1.bwin, r + 1);
        Meet(r + 1, ll);
        return;
      }
      RoundOver(a, b, f1.bwin, f2.bwin, r, r + 1);
      done := false;
    }

    // The files meet there.
    method Meet(i: nat, j: nat)
      requires Valid() && Clear() && f1.lines != f2.lines && Same3(f1.bwin, i, f2.bwin, j) && (i > 0 || j > 0)
      requires FirstMeeting(RestA(), RestB(), i, j)
      modifies this, f1, f2
      ensures Valid() && |f1.bwin| == 1 && |f2.bwin| == 1 && f1.bwin[0] == f2.bwin[0]
      ensures Met(old(RestA()), old(RestB()), old(printed), old(f1.linecnt), old(f2.linecnt))
    {
      hide Reaches, Apart, FirstMeeting, Same3;
      Agree(i, j);
    }

    // Both windows end at these lines.
    method Trim(i: nat, j: nat)
      requires Valid() && Clear() && i < |f1.bwin| && j < |f2.bwin|
      modifies f1, f2
      ensures Valid() && Clear() && f1.linecnt == old(f1.linecnt) && f2.linecnt == old(f2.linecnt)
      ensures f1.bwin == old(f1.bwin)[..i + 1] && f2.bwin == old(f2.bwin)[..j + 1]
      ensures f1.linecnt + i < |f1.lines| && f2.linecnt + j < |f2.lines|
    {
      hide Reaches, Apart;
      f1.Aside(i);
      f2.Aside(j);
      assert |f1.lines[f1.linecnt..]| > i && |f2.lines[f2.linecnt..]| > j;
    }

    // Lines i and j of the windows agree: the rest is put aside, and what is
    // before them printed.
    method Agree(i: nat, j: nat)
      requires Valid() && Clear() && f1.lines != f2.lines && Same3(f1.bwin, i, f2.bwin, j) && (i > 0 || j > 0)
      modifies this, f1, f2
      ensures Valid() && f1.linecnt == old(f1.linecnt) + i && f2.linecnt == old(f2.linecnt) + j
      ensures |f1.bwin| == 1 && |f2.bwin| == 1 && f1.bwin[0] == f2.bwin[0]
      ensures printed == old(printed) + [HunkFor(f1.lines, f2.lines, old(f1.linecnt), i, old(f2.linecnt), j)]
    {
      hide Reaches, Apart, Heading, HunkFor, HunksFor;
      ghost var x, y := f1.bwin[i], f2.bwin[j];
      Trim(i, j);
      assert f1.bwin[i..] == [x] && f2.bwin[j..] == [y];
      OneHunk(f1.lines, f2.lines, f1.linecnt, i, f2.linecnt, j);
      Differ();
    }

    // diff(): the output is a correct edit script of the two files, and the one
    // of which every hunk ends where they first meet again.
    method Compare()
      requires Valid() && f1.linecnt == 0 && f2.linecnt == 0 && printed == [] && f1.bwin == [] && f2.bwin == []
      modifies this, f1, f2
      ensures EditScript(printed, f1.lines, f2.lines) && diffs == |printed|
      ensures Reaches(printed, f1.lines, f2.lines, |f1.lines|, |f2.lines|) && Shortest()
    {
      hide EditScript, Reaches, Apart, Least, FirstMeeting, NoMeeting, Differs;
      var l1, l2 := Fill();
      while l1 != NIL && l2 != NIL
        invariant Valid() && Clear() && Settled(l1, l2) && Shortest()
        decreases if l1 == NIL || l2 == NIL then 0 else 1 + |f1.lines| - f1.linecnt
      {
        var same := f1.bwin[l1] == f2.bwin[l2];
        if !same {
          l1, l2 := Hunt();
        }
        if l1 != NIL && l2 != NIL {
          l1, l2 := Equal();
        }
      }
      if l1 != NIL {
        Drain(f1);
      }
      if l2 != NIL {
        Drain(f2);
      }
      Finish();
    }

    // The search, for one more least hunk.
    method Hunt() returns (l1: int, l2: int)
      requires Valid() && Clear() && Shortest() && |f1.bwin| == 1 && |f2.bwin| == 1 && f1.bwin[0] != f2.bwin[0]
      modifies this, f1, f2
      ensures Valid() && Shortest()
      ensures l1 != NIL && l2 != NIL ==>
        |f1.bwin| == 1 && |f2.bwin| == 1 && f1.bwin[0] == f2.bwin[0] && f1.linecnt >= old(f1.linecnt)
      ensures l1 == NIL || l2 == NIL ==> Clear() && Settled(l1, l2)
    {
      hide Reaches, Apart, Least, FirstMeeting, NoMeeting;
      Heads();
      ghost var a, b, p, q := RestA(), RestB(), f1.linecnt, f2.linecnt;
      l1, l2 := Search();
      if l1 != NIL && l2 != NIL {
        MetIsLeast(f1.lines, f2.lines, p, f1.linecnt - p, q, f2.linecnt - q);
        OneMoreLeast(old(printed), HunkFor(f1.lines, f2.lines, p, f1.linecnt - p, q, f2.linecnt - q),
          f1.lines, f2.lines);
      }
    }

    // Everything left over is one last hunk.
    method Finish()
      requires Valid() && Clear() && f1.AtEnd() && f2.AtEnd() && Shortest()
      requires Differs(RestA(), RestB()) && NoMeeting(RestA(), RestB())
      requires f1.lines == f2.lines ==> f1.bwin == [] && f2.bwin == []
      modifies this, f1, f2
      ensures EditScript(printed, f1.lines, f2.lines) && diffs == |printed|
      ensures Reaches(printed, f1.lines, f2.lines, |f1.lines|, |f2.lines|) && Shortest()
    {
      hide Reaches, Apart, AllLeast, Least, NoMeeting, Differs, EditScript, HunksFor;
      Lasts();
      FlushWindows();
      ScriptComplete(printed, f1.lines, f2.lines);
    }

    // What the last hunk will be.
    lemma Lasts()
      requires Valid() && f1.AtEnd() && f2.AtEnd() && Shortest()
      requires Differs(RestA(), RestB()) && NoMeeting(RestA(), RestB())
      ensures |f1.bwin| == |f1.lines| - f1.linecnt && |f2.bwin| == |f2.lines| - f2.linecnt
      ensures AllLeast(printed + HunksFor(f1.lines, f2.lines, f1.linecnt, |f1.lines| - f1.linecnt,
                                          f2.linecnt, |f2.lines| - f2.linecnt), f1.lines, f2.lines)
    {
      hide Reaches, Apart, AllLeast, Least, NoMeeting, Differs, HunkFor;
      assert |f1.lines[f1.linecnt..]| == |f1.bwin| && |f2.lines[f2.linecnt..]| == |f2.bwin|;
      if f1.bwin != [] || f2.bwin != [] {
        LastIsLeast(f1.lines, f2.lines, f1.linecnt, f2.linecnt);
        OneMoreLeast(printed, HunkFor(f1.lines, f2.lines, f1.linecnt, |f1.bwin|, f2.linecnt, |f2.bwin|),
          f1.lines, f2.lines);
      } else {
        assert printed + [] == printed;
      }
    }

    // Print both windows as they are.
    method FlushWindows()
      requires Valid() && Clear()
      requires |f1.bwin| == |f1.lines| - f1.linecnt && |f2.bwin| == |f2.lines| - f2.linecnt
      requires f1.lines == f2.lines ==> f1.bwin == [] && f2.bwin == []
      modifies this, f1, f2
      ensures diffs == |printed| && Apart(printed) && (f1.lines == f2.lines ==> printed == [])
      ensures Reaches(printed, f1.lines, f2.lines, |f1.lines|, |f2.lines|)
      ensures printed == old(printed) + HunksFor(f1.lines, f2.lines, old(f1.linecnt), |f1.lines| - old(f1.linecnt),
                                                 old(f2.linecnt), |f2.lines| - old(f2.linecnt))
    {
      hide Reaches, Apart, HunksFor;
      f1.ewin := NIL;
      f2.ewin := NIL;
      Differ();
    }

    // Read the rest of a file into its window.
    method Drain(f: Window)
      requires f.Valid()
      modifies f
      ensures f.Valid() && f.AtEnd() && f.linecnt == old(f.linecnt)
      ensures old(f.AtEnd()) ==> f.bwin == old(f.bwin)
    {
      var l := f.Next();
      while l != NIL
        invariant f.Valid() && f.linecnt == old(f.linecnt) && (l == NIL ==> f.AtEnd())
        invariant old(f.AtEnd()) ==> l == NIL && f.bwin == old(f.bwin)
        decreases |f.asides| + |f.unread|, if l == NIL then 0 else 1
      {
        l := f.Next();
      }
    }
  }
}
