/** Doubly linked lists threaded through numbered items, as `uthash` keeps several of them through the same items. */
module Links {
  /** The null pointer; items are the numbers from 0. */
  const NULL := -1

  function First(s: seq<int>): int {
    if s == [] then NULL else s[0]
  }

  function Last(s: seq<int>): int {
    if s == [] then NULL else s[|s| - 1]
  }

  /** Different items out of `n`. */
  ghost predicate Items(s: seq<int>, n: nat) {
    && (forall i :: 0 <= i < |s| ==> 0 <= s[i] < n)
    && forall i, j :: 0 <= i < j < |s| ==> s[i] != s[j]
  }

  /** Each item of `s` points to the next one of `s`. */
  ghost predicate Forward(next: seq<int>, s: seq<int>) {
    forall i :: 0 <= i < |s| - 1 ==> 0 <= s[i] < |next| && next[s[i]] == s[i + 1]
  }

  ghost predicate Backward(prev: seq<int>, s: seq<int>) {
    && (s != [] ==> 0 <= s[0] < |prev| && prev[s[0]] == NULL)
    && forall i :: 0 < i < |s| ==> 0 <= s[i] < |prev| && prev[s[i]] == s[i - 1]
  }

  ghost predicate Ends(next: seq<int>, s: seq<int>) {
    s != [] ==> 0 <= s[|s| - 1] < |next| && next[s[|s| - 1]] == NULL
  }

  /** `s` is a list from NULL to NULL. */
  ghost predicate Linked(next: seq<int>, prev: seq<int>, n: nat, s: seq<int>) {
    |next| == |prev| == n && Items(s, n) && Forward(next, s) && Ends(next, s) && Backward(prev, s)
  }

  /** What happens to other items does not matter. */
  lemma LinkedFrame(next: seq<int>, prev: seq<int>, n: nat, s: seq<int>, next': seq<int>, prev': seq<int>)
    requires Linked(next, prev, n, s) && |next'| == |prev'| == n
    requires forall i :: 0 <= i < |s| ==> next'[s[i]] == next[s[i]] && prev'[s[i]] == prev[s[i]]
    ensures Linked(next', prev', n, s)
  {
  }

  lemma OneItem(next: seq<int>, prev: seq<int>, n: nat, x: int)
    requires |next| == |prev| == n && 0 <= x < n
    ensures Linked(next[x := NULL], prev[x := NULL], n, [x])
  {
  }

  lemma PushedFront(next: seq<int>, prev: seq<int>, n: nat, s: seq<int>, x: int)
    requires Linked(next, prev, n, s) && 0 <= x < n && x !in s
    ensures Linked(next[x := First(s)], if s == [] then prev[x := NULL] else prev[x := NULL][s[0] := x], n, [x] + s)
  {
    var t := [x] + s;
    assert forall i :: 0 < i < |t| ==> t[i] == s[i - 1];
  }

  lemma AppendedForward(next: seq<int>, s: seq<int>, x: int)
    requires Items(s, |next|) && Forward(next, s) && 0 <= x < |next| && x !in s
    ensures var next' := if s == [] then next[x := NULL] else next[x := NULL][Last(s) := x];
      |next'| == |next| && Forward(next', s + [x]) && Ends(next', s + [x])
  {
    var t := s + [x];
    assert forall i :: 0 <= i < |s| ==> t[i] == s[i];
    forall i | 0 <= i < |s| ensures s[i] != x && (i < |s| - 1 ==> s[i] != Last(s)) {
      assert s[i] in s;
    }
  }

  lemma AppendedBackward(prev: seq<int>, s: seq<int>, x: int)
    requires Items(s, |prev|) && Backward(prev, s) && 0 <= x < |prev| && x !in s
    ensures Backward(prev[x := Last(s)], s + [x]) && Items(s + [x], |prev|)
  {
    var t := s + [x];
    assert forall i :: 0 <= i < |s| ==> t[i] == s[i] && s[i] in s;
  }

  lemma Appended(next: seq<int>, prev: seq<int>, n: nat, s: seq<int>, x: int)
    requires Linked(next, prev, n, s) && 0 <= x < n && x !in s
    ensures Linked(if s == [] then next[x := NULL] else next[x := NULL][Last(s) := x], prev[x := Last(s)], n, s + [x])
  {
    AppendedForward(next, s, x);
    AppendedBackward(prev, s, x);
  }

  lemma RemovedForward(next: seq<int>, s: seq<int>, i: nat)
    requires Items(s, |next|) && Forward(next, s) && Ends(next, s) && i < |s|
    ensures next[s[i]] == (if i == |s| - 1 then NULL else s[i + 1])
    ensures var t, next' := s[..i] + s[i + 1..], if i == 0 then next else next[s[i - 1] := next[s[i]]];
      Forward(next', t) && Ends(next', t) && Items(t, |next|)
  {
    var t := s[..i] + s[i + 1..];
    assert forall k :: 0 <= k < i ==> t[k] == s[k];
    assert forall k :: i <= k < |t| ==> t[k] == s[k + 1];
  }

  lemma RemovedBackward(prev: seq<int>, s: seq<int>, i: nat)
    requires Items(s, |prev|) && Backward(prev, s) && i < |s|
    ensures prev[s[i]] == (if i == 0 then NULL else s[i - 1])
    ensures var t, prev' := s[..i] + s[i + 1..], if i == |s| - 1 then prev else prev[s[i + 1] := prev[s[i]]];
      Backward(prev', t)
  {
    var t := s[..i] + s[i + 1..];
    assert forall k :: 0 <= k < i ==> t[k] == s[k];
    assert forall k :: i <= k < |t| ==> t[k] == s[k + 1];
  }

  /** Taking item `i` out, by letting its neighbours point to each other. */
  lemma Removed(next: seq<int>, prev: seq<int>, n: nat, s: seq<int>, i: nat)
    requires Linked(next, prev, n, s) && i < |s|
    ensures var x, t := s[i], s[..i] + s[i + 1..];
      && prev[x] == (if i == 0 then NULL else s[i - 1])
      && next[x] == (if i == |s| - 1 then NULL else s[i + 1])
      && Linked(if i == 0 then next else next[prev[x] := next[x]],
                if i == |s| - 1 then prev else prev[next[x] := prev[x]], n, t)
  {
    RemovedForward(next, s, i);
    RemovedBackward(prev, s, i);
  }

  lemma RemovedMembers(s: seq<int>, i: nat, n: nat)
    requires Items(s, n) && i < |s|
    ensures forall y :: y in s[..i] + s[i + 1..] <==> y in s && y != s[i]
  {
    assert s == s[..i] + [s[i]] + s[i + 1..];
    assert forall k :: i < k < |s| ==> s[k] != s[i];
  }
}
