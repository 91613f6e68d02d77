// The string operations of the original program that the other modules share:
// `str.strip`, `str.rstrip`, `str.find` and `str.join`, and `or`.
module PyText {
  import opened Basics

  // The characters that `str.strip()` removes.
  predicate IsSpace(c: char) {
    var n := c as int;
    || 0x09 <= n <= 0x0d
    || 0x1c <= n <= 0x20
    || n == 0x85 || n == 0xa0 || n == 0x1680
    || 0x2000 <= n <= 0x200a
    || n == 0x2028 || n == 0x2029 || n == 0x202f || n == 0x205f || n == 0x3000
  }

  ghost predicate AllSpace(s: string) {
    forall i :: 0 <= i < |s| ==> IsSpace(s[i])
  }

  predicate Trimmed(s: string) {
    s != "" ==> !IsSpace(s[0]) && !IsSpace(s[|s| - 1])
  }

  function LStrip(s: string): string {
    if s != "" && IsSpace(s[0]) then LStrip(s[1..]) else s
  }

  function RStrip(s: string): string {
    if s != "" && IsSpace(s[|s| - 1]) then RStrip(s[..|s| - 1]) else s
  }

  function Strip(s: string): string {
    RStrip(LStrip(s))
  }

  // ----- strip: what is removed and what stays -----

  lemma {:induction false} LStripParts(s: string) returns (pre: string)
    ensures AllSpace(pre) && s == pre + LStrip(s)
    ensures LStrip(s) != "" ==> !IsSpace(LStrip(s)[0])
  {
    if s != "" && IsSpace(s[0]) {
      var rest := LStripParts(s[1..]);
      pre := [s[0]] + rest;
    } else {
      pre := "";
    }
  }

  lemma {:induction false} RStripParts(s: string) returns (post: string)
    ensures AllSpace(post) && s == RStrip(s) + post
    ensures RStrip(s) != "" ==> !IsSpace(RStrip(s)[|RStrip(s)| - 1])
  {
    if s != "" && IsSpace(s[|s| - 1]) {
      var rest := RStripParts(s[..|s| - 1]);
      post := rest + [s[|s| - 1]];
    } else {
      post := "";
    }
  }

  // `strip` cuts white space, and only white space, off both ends.
  lemma StripParts(s: string) returns (pre: string, post: string)
    ensures AllSpace(pre) && AllSpace(post) && s == pre + Strip(s) + post
    ensures Trimmed(Strip(s))
  {
    hide LStrip, RStrip;
    pre := LStripParts(s);
    post := RStripParts(LStrip(s));
    assert s == pre + (Strip(s) + post);
    if Strip(s) != "" {
      assert LStrip(s)[0] == Strip(s)[0];
    }
  }

  lemma {:induction false} LStripSkips(pre: string, s: string)
    requires AllSpace(pre) && (s != "" ==> !IsSpace(s[0]))
    ensures LStrip(pre + s) == s
  {
    if pre == "" {
      assert pre + s == s;
    } else {
      assert (pre + s)[1..] == pre[1..] + s;
      LStripSkips(pre[1..], s);
    }
  }

  lemma {:induction false} RStripSkips(s: string, post: string)
    requires AllSpace(post) && (s != "" ==> !IsSpace(s[|s| - 1]))
    ensures RStrip(s + post) == s
  {
    if post == "" {
      assert s + post == s;
    } else {
      var n := |post| - 1;
      assert (s + post)[..|s + post| - 1] == s + post[..n];
      RStripSkips(s, post[..n]);
    }
  }

  // The result of `strip` is the only trimmed middle of the text.
  lemma StripUnique(pre: string, s: string, post: string)
    requires AllSpace(pre) && AllSpace(post) && Trimmed(s)
    ensures Strip(pre + s + post) == s
  {
    if s == "" {
      assert pre + s + post == (pre + post) + "";
      LStripSkips(pre + post, "");
    } else {
      assert pre + s + post == pre + (s + post);
      LStripSkips(pre, s + post);
      RStripSkips(s, post);
    }
  }

  lemma StripTrimmed(s: string)
    requires Trimmed(s)
    ensures Strip(s) == s
  {
    assert s == "" + s + "";
    StripUnique("", s, "");
  }

  // ----- find -----

  predicate Occurs(s: string, t: string, i: nat) {
    i + |t| <= |s| && s[i..i + |t|] == t
  }

  function FindFrom(s: string, t: string, from: nat): (r: int)
    requires from <= |s|
    ensures r == -1 || from <= r <= |s| - |t|
    decreases |s| - from
  {
    if from + |t| > |s| then -1
    else if s[from..from + |t|] == t then from
    else FindFrom(s, t, from + 1)
  }

  // `s.find(t)`: the first index at which `t` occurs, or -1.
  function Find(s: string, t: string): (r: int)
    ensures r == -1 || 0 <= r <= |s| - |t|
  {
    FindFrom(s, t, 0)
  }

  lemma {:induction false} FindFromIsFirst(s: string, t: string, from: nat)
    requires from <= |s|
    ensures var r := FindFrom(s, t, from);
            if r == -1 then forall i: nat :: from <= i ==> !Occurs(s, t, i)
            else Occurs(s, t, r) && forall i: nat :: from <= i < r ==> !Occurs(s, t, i)
    decreases |s| - from
  {
    if from + |t| <= |s| && s[from..from + |t|] != t {
      FindFromIsFirst(s, t, from + 1);
    }
  }

  lemma FindIsFirst(s: string, t: string)
    ensures var r := Find(s, t);
            if r == -1 then forall i: nat :: !Occurs(s, t, i)
            else Occurs(s, t, r) && forall i: nat :: i < r ==> !Occurs(s, t, i)
  {
    FindFromIsFirst(s, t, 0);
  }

  lemma FindUnique(s: string, t: string, i: nat)
    requires Occurs(s, t, i) && forall j: nat :: j < i ==> !Occurs(s, t, j)
    ensures Find(s, t) == i
  {
    FindIsFirst(s, t);
  }

  // ----- the first of several strings -----

  // Python's `or` on strings.
  function Or(a: string, b: string): string {
    if a != "" then a else b
  }

  // The first entry that is not empty, "" when all are.
  ghost predicate IsFirstGiven(entries: seq<string>, r: string) {
    || (r == "" && forall i :: 0 <= i < |entries| ==> entries[i] == "")
    || exists i :: 0 <= i < |entries| && entries[i] == r != "" && forall j :: 0 <= j < i ==> entries[j] == ""
  }

  lemma OneIsFirstGiven(entries: seq<string>, a: string, b: string)
    requires IsFirstGiven(entries, a) && IsFirstGiven(entries, b)
    ensures a == b
  {
  }

  lemma OrIsFirstGiven(a: string, rest: seq<string>, r: string)
    requires IsFirstGiven(rest, r)
    ensures IsFirstGiven([a] + rest, Or(a, r))
  {
    var all := [a] + rest;
    assert all[0] == a;
    if a == "" && r != "" {
      var i :| 0 <= i < |rest| && rest[i] == r && forall j :: 0 <= j < i ==> rest[j] == "";
      assert all[i + 1] == r;
      assert forall j :: 0 <= j < i + 1 ==> all[j] == "";
    }
  }

  lemma FirstOfThree(a: string, b: string, c: string)
    ensures IsFirstGiven([a, b, c], Or(a, Or(b, c)))
  {
    assert IsFirstGiven([c], c) by {
      assert [c][0] == c;
    }
    OrIsFirstGiven(b, [c], c);
    OrIsFirstGiven(a, [b] + [c], Or(b, c));
    assert [a] + ([b] + [c]) == [a, b, c];
  }

  lemma EachIsFirstGiven(entries: seq<string>, a: string, b: string)
    requires IsFirstGiven(entries, b)
    ensures IsFirstGiven(entries, a) ==> a == b
  {
    if IsFirstGiven(entries, a) {
      OneIsFirstGiven(entries, a, b);
    }
  }

  lemma FirstOfTwo(a: string, b: string)
    ensures IsFirstGiven([a, b], Or(a, b))
  {
    assert IsFirstGiven([b], b) by {
      assert [b][0] == b;
    }
    OrIsFirstGiven(a, [b], b);
    assert [a] + [b] == [a, b];
  }

  // ----- join -----

  function Concat(parts: seq<string>): string {
    if parts == [] then "" else parts[0] + Concat(parts[1..])
  }

  function Join(sep: string, parts: seq<string>): string {
    if parts == [] then ""
    else if |parts| == 1 then parts[0]
    else parts[0] + sep + Join(sep, parts[1..])
  }

  lemma {:induction false} ConcatAppend(a: seq<string>, b: seq<string>)
    ensures Concat(a + b) == Concat(a) + Concat(b)
  {
    if a == [] {
      assert a + b == b;
    } else {
      assert (a + b)[1..] == a[1..] + b;
      ConcatAppend(a[1..], b);
    }
  }

  // ----- sorted, for the keys of an integer-keyed dictionary -----

  function MinKey(keys: set<int>): (m: int)
    requires keys != {}
    ensures m in keys && forall k :: k in keys ==> m <= k
  {
    MinKeyExists(keys);
    var m :| m in keys && forall k :: k in keys ==> m <= k;
    m
  }

  lemma {:induction false} LeastKey(keys: set<int>) returns (m: int)
    requires keys != {}
    ensures m in keys && forall k :: k in keys ==> m <= k
  {
    var x := SomeElement(keys);
    var rest := keys - {x};
    m := x;
    if rest != {} {
      var y := LeastKey(rest);
      m := if x <= y then x else y;
    }
    forall k | k in keys
      ensures m <= k
    {
      assert k == x || k in rest;
    }
  }

  lemma MinKeyExists(keys: set<int>)
    requires keys != {}
    ensures exists m :: m in keys && forall k :: k in keys ==> m <= k
  {
    var m := LeastKey(keys);
  }

  function SortedKeys(keys: set<int>): seq<int> {
    if keys == {} then []
    else
      var m := MinKey(keys);
      [m] + SortedKeys(keys - {m})
  }

  lemma {:induction false} SortedKeysSorted(keys: set<int>)
    ensures var ks := SortedKeys(keys);
            && (forall i, j :: 0 <= i < j < |ks| ==> ks[i] < ks[j])
            && (forall k :: k in ks <==> k in keys)
  {
    hide MinKey;
    if keys != {} {
      var m := MinKey(keys);
      var rest := SortedKeys(keys - {m});
      SortedKeysSorted(keys - {m});
      assert SortedKeys(keys) == [m] + rest;
      assert forall i :: 0 <= i < |rest| ==> rest[i] in keys - {m};
    }
  }
}
