// Intrusive lists.  Every queue of the kernel and of the buffer cache is a
// table of link fields indexed by slot number, with a separate head.  A slot
// that is on no list keeps whatever its link field last held, so a list is
// described only through the links of its own members.

module Links {
  import opened Basics

  ghost predicate NoDup(q: seq<int>) {
    forall i, j :: 0 <= i < j < |q| ==> q[i] != q[j]
  }

  ghost predicate InTable(q: seq<int>, n: nat) {
    forall i :: 0 <= i < |q| ==> 0 <= q[i] < n
  }

  function RemoveAt(q: seq<int>, i: nat): (r: seq<int>)
    requires i < |q|
    ensures |r| == |q| - 1
  {
    q[..i] + q[i + 1..]
  }

  // The position of x in q, or |q| when x is absent.
  function IndexOf(q: seq<int>, x: int): (i: nat)
    ensures i <= |q|
    ensures i < |q| ==> q[i] == x
    ensures forall j :: 0 <= j < i ==> q[j] != x
    ensures i == |q| <==> x !in q
  {
    if q == [] then 0
    else if q[0] == x then 0
    else 1 + IndexOf(q[1..], x)
  }

  function Remove(q: seq<int>, x: int): (r: seq<int>) {
    if IndexOf(q, x) < |q| then RemoveAt(q, IndexOf(q, x)) else q
  }

  // The member that follows position i, or nil.
  function After(q: seq<int>, i: nat): int
    requires i < |q|
  {
    if i + 1 < |q| then q[i + 1] else NIL
  }

  // q is the list that starts at head and follows the links in next.
  ghost predicate Chain(next: seq<int>, head: int, q: seq<int>) {
    && InTable(q, |next|)
    && NoDup(q)
    && head == (if q == [] then NIL else q[0])
    && forall i {:trigger next[q[i]]} :: 0 <= i < |q| ==> next[q[i]] == After(q, i)
  }

  lemma RemoveAtMembers(q: seq<int>, i: nat)
    requires NoDup(q) && i < |q|
    ensures NoDup(RemoveAt(q, i))
    ensures forall x :: x in RemoveAt(q, i) <==> x in q && x != q[i]
  {
    var r := RemoveAt(q, i);
    forall x | x in q && x != q[i] ensures x in r {
      var k :| 0 <= k < |q| && q[k] == x;
      assert r[if k < i then k else k - 1] == x;
    }
    forall x | x in r ensures x in q && x != q[i] {
      var k :| 0 <= k < |r| && r[k] == x;
      assert q[if k < i then k else k + 1] == x;
    }
  }

  lemma RemoveMembers(q: seq<int>, x: int)
    requires NoDup(q)
    ensures NoDup(Remove(q, x))
    ensures forall y :: y in Remove(q, x) <==> y in q && y != x
  {
    if IndexOf(q, x) < |q| {
      RemoveAtMembers(q, IndexOf(q, x));
    }
  }

  lemma IndexUnique(q: seq<int>, i: nat)
    requires NoDup(q) && i < |q|
    ensures IndexOf(q, q[i]) == i
  {
    var k := IndexOf(q, q[i]);
  }

  lemma NoDupAppend(q: seq<int>, x: int)
    requires NoDup(q) && x !in q
    ensures NoDup(q + [x])
    ensures forall y :: y in q + [x] <==> y in q || y == x
  {}

  // A list depends only on the links of its members.
  lemma ChainFrame(next: seq<int>, next': seq<int>, head: int, q: seq<int>)
    requires Chain(next, head, q) && |next'| == |next|
    requires forall i :: 0 <= i < |q| ==> next'[q[i]] == next[q[i]]
    ensures Chain(next', head, q)
  {}

  lemma ChainAppendEmpty(next: seq<int>, r: int)
    requires 0 <= r < |next|
    ensures Chain(next[r := NIL], r, [r])
  {}

  lemma ChainAppend(next: seq<int>, head: int, q: seq<int>, r: int)
    requires Chain(next, head, q) && q != []
    requires 0 <= r < |next| && r !in q
    ensures Chain(next[q[|q| - 1] := r][r := NIL], head, q + [r])
  {
    var next' := next[q[|q| - 1] := r][r := NIL];
    var q' := q + [r];
    forall i | 0 <= i < |q'| ensures next'[q'[i]] == After(q', i) {
      if i < |q| {
        assert next[q[i]] == After(q, i);
      }
    }
  }

  lemma ChainPrepend(next: seq<int>, head: int, q: seq<int>, r: int)
    requires Chain(next, head, q)
    requires 0 <= r < |next| && r !in q
    ensures Chain(next[r := head], r, [r] + q)
  {
    var next' := next[r := head];
    var q' := [r] + q;
    forall i | 0 <= i < |q'| ensures next'[q'[i]] == After(q', i) {
      if i > 0 {
        assert q'[i] == q[i - 1];
        assert next[q[i - 1]] == After(q, i - 1);
      }
    }
  }

  // Dropping the head needs no link to change.
  lemma ChainTail(next: seq<int>, head: int, q: seq<int>)
    requires Chain(next, head, q) && q != []
    ensures Chain(next, next[head], q[1..])
    ensures q[1..] == RemoveAt(q, 0)
  {
    assert next[q[0]] == After(q, 0);
    forall i | 0 <= i < |q[1..]| ensures next[q[1..][i]] == After(q[1..], i) {
      assert next[q[i + 1]] == After(q, i + 1);
    }
  }

  // Taking out a later member redirects the link of its predecessor.
  lemma ChainUnlink(next: seq<int>, head: int, q: seq<int>, i: nat)
    requires Chain(next, head, q) && 0 < i < |q|
    ensures Chain(next[q[i - 1] := next[q[i]]], head, RemoveAt(q, i))
  {
    var next' := next[q[i - 1] := next[q[i]]];
    var q' := RemoveAt(q, i);
    RemoveAtMembers(q, i);
    forall j | 0 <= j < |q'| ensures next'[q'[j]] == After(q', j) {
      var k := if j < i then j else j + 1;
      assert q'[j] == q[k];
      assert next[q[k]] == After(q, k);
      assert next[q[i]] == After(q, i);
    }
  }
}
