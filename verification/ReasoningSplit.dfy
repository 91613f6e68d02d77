// Separating inline `<think>...</think>` reasoning from visible text
// (backend/app/llm_reasoning.py).
//
// `Drain` is what one pass of the `feed` loop computes on the buffer, with its
// held-back tail. `Segments` is an independent description of the same cut:
// the text is a sequence of pieces with the two tags alternating between
// them, each cut at the first place its tag occurs. The theorems say that
// feeding a text in any chunks gives what `Segments` describes.
module ReasoningSplit {
  import opened Basics
  import opened PyText

  const DEFAULT_OPEN := "<think>"
  const DEFAULT_CLOSE := "</think>"

  datatype Tags = Tags(open: string, close: string) {
    // The tags with which `feed` returns: see `FeedEndsExactly`.
    predicate Valid() {
      open != "" || close != ""
    }

    // The tag that ends the current kind of text.
    function Sought(inside: bool): string {
      if inside then close else open
    }

    // An empty tag is found at once; the other one then is not empty.
    function Rank(inside: bool): nat {
      if Sought(inside) == "" then 1 else 0
    }
  }

  const DEFAULT_TAGS := Tags(DEFAULT_OPEN, DEFAULT_CLOSE)

  datatype State = State(inside: bool, buf: string)

  datatype Out = Out(visible: string, reasoning: string) {
    function Plus(that: Out): Out {
      Out(visible + that.visible, reasoning + that.reasoning)
    }
  }

  const NOTHING := Out("", "")
  const START := State(false, "")

  function Emit(inside: bool, s: string): Out {
    if inside then Out("", s) else Out(s, "")
  }

  // ----- the held-back tail -----

  // The last `n` characters of `s` are a proper prefix of `tag`.
  predicate IsPartialTag(s: string, tag: string, n: nat) {
    n <= |s| && n < |tag| && s[|s| - n..] == tag[..n]
  }

  ghost predicate IsLongestPartialTag(s: string, tag: string, n: nat) {
    IsPartialTag(s, tag, n) && forall m: nat :: IsPartialTag(s, tag, m) ==> m <= n
  }

  function HoldFrom(s: string, tag: string, n: nat): (r: nat)
    requires n <= |s| && n < |tag|
    ensures r <= n
  {
    if n == 0 || IsPartialTag(s, tag, n) then n else HoldFrom(s, tag, n - 1)
  }

  function Hold(s: string, tag: string): (r: nat)
    ensures r <= |s| && r <= |tag|
    ensures tag != "" ==> r < |tag|
  {
    if tag == "" then 0 else HoldFrom(s, tag, if |s| < |tag| then |s| else |tag| - 1)
  }

  lemma {:induction false} HoldFromIsLongest(s: string, tag: string, n: nat)
    requires n <= |s| && n < |tag|
    requires forall m: nat :: n < m ==> !IsPartialTag(s, tag, m)
    ensures IsLongestPartialTag(s, tag, HoldFrom(s, tag, n))
  {
    if n != 0 && !IsPartialTag(s, tag, n) {
      HoldFromIsLongest(s, tag, n - 1);
    }
  }

  lemma HoldIsLongest(s: string, tag: string)
    requires tag != ""
    ensures IsLongestPartialTag(s, tag, Hold(s, tag))
  {
    HoldFromIsLongest(s, tag, if |s| < |tag| then |s| else |tag| - 1);
  }

  lemma HoldUnique(s: string, tag: string, n: nat)
    requires tag != "" && IsLongestPartialTag(s, tag, n)
    ensures Hold(s, tag) == n
  {
    HoldIsLongest(s, tag);
    assert IsPartialTag(s, tag, n) && IsPartialTag(s, tag, Hold(s, tag));
  }

  method HeldPartialLen(s: string, tag: string) returns (length: nat)
    ensures tag != "" ==> IsLongestPartialTag(s, tag, length)
    ensures tag == "" ==> length == 0
    ensures length == Hold(s, tag)
  {
    var n := if |s| < |tag| - 1 then |s| else |tag| - 1;
    while n > 0
      invariant -1 <= n <= |s| && n < |tag| && (n == -1 <==> tag == "")
      invariant forall m: nat :: n < m ==> !IsPartialTag(s, tag, m)
    {
      if s[|s| - n..] == tag[..n] {
        assert IsPartialTag(s, tag, n);
        HoldUnique(s, tag, n);
        return n;
      }
      n := n - 1;
    }
    if tag != "" {
      assert IsPartialTag(s, tag, 0);
      HoldUnique(s, tag, 0);
    }
    return 0;
  }

  // ----- one pass over the buffer -----

  // What a pass emits and the state it leaves.
  datatype Run = Run(out: Out, st: State) {
    function After(earlier: Out): Run {
      Run(earlier.Plus(out), st)
    }
  }

  function Drain(g: Tags, inside: bool, buf: string): Run
    requires g.Valid()
    decreases |buf|, g.Rank(inside)
  {
    var tag := g.Sought(inside);
    var idx := Find(buf, tag);
    if idx == -1 then
      var cut := |buf| - Hold(buf, tag);
      Run(Emit(inside, buf[..cut]), State(inside, buf[cut..]))
    else
      Drain(g, !inside, buf[idx + |tag|..]).After(Emit(inside, buf[..idx]))
  }

  function FeedOnce(g: Tags, st: State, text: string): Run
    requires g.Valid()
  {
    Drain(g, st.inside, st.buf + text)
  }

  function FlushOut(st: State): Out {
    Emit(st.inside, st.buf)
  }

  function FeedAll(g: Tags, st: State, chunks: seq<string>): Run
    requires g.Valid()
    decreases |chunks|
  {
    if chunks == [] then Run(NOTHING, st)
    else
      var first := FeedOnce(g, st, chunks[0]);
      FeedAll(g, first.st, chunks[1..]).After(first.out)
  }

  // What a caller has received once it fed all the chunks and flushed.
  function Received(g: Tags, chunks: seq<string>): Out
    requires g.Valid()
  {
    var run := FeedAll(g, START, chunks);
    run.out.Plus(FlushOut(run.st))
  }

  lemma AfterTwice(run: Run, near: Out, far: Out)
    ensures run.After(near).After(far) == run.After(far.Plus(near))
  {
    assert far.visible + (near.visible + run.out.visible) == far.visible + near.visible + run.out.visible;
    assert far.reasoning + (near.reasoning + run.out.reasoning) == far.reasoning + near.reasoning + run.out.reasoning;
  }

  // The two outcomes of one turn of the loop.
  lemma DrainEnds(g: Tags, inside: bool, s: string, cut: nat)
    requires g.Valid()
    requires Find(s, g.Sought(inside)) == -1 && cut == |s| - Hold(s, g.Sought(inside))
    ensures Drain(g, inside, s) == Run(Emit(inside, s[..cut]), State(inside, s[cut..]))
  {
  }

  lemma DrainGoesOn(g: Tags, inside: bool, s: string, idx: nat, rest: string)
    requires g.Valid()
    requires Find(s, g.Sought(inside)) == idx && rest == s[idx + |g.Sought(inside)|..]
    ensures Drain(g, inside, s) == Drain(g, !inside, rest).After(Emit(inside, s[..idx]))
  {
    hide Find, Hold, Out.Plus, Emit;
  }

  lemma NothingBefore(run: Run)
    ensures run.After(NOTHING) == run
  {
    assert "" + run.out.visible == run.out.visible && "" + run.out.reasoning == run.out.reasoning;
  }

  lemma PlusEmit(soFar: Out, inside: bool, s: string)
    ensures soFar.Plus(Emit(inside, s)) ==
            if inside then Out(soFar.visible, soFar.reasoning + s) else Out(soFar.visible + s, soFar.reasoning)
  {
    assert soFar.visible + "" == soFar.visible && soFar.reasoning + "" == soFar.reasoning;
  }

  // What the last turn of the loop leaves.
  lemma TurnEnds(g: Tags, inside: bool, s: string, cut: nat, soFar: Out)
    requires g.Valid()
    requires Find(s, g.Sought(inside)) == -1 && cut == |s| - Hold(s, g.Sought(inside))
    ensures Drain(g, inside, s).After(soFar) == Run(soFar.Plus(Emit(inside, s[..cut])), State(inside, s[cut..]))
  {
    DrainEnds(g, inside, s, cut);
  }

  // What the loop has still to do after a tag was found.
  lemma TurnGoesOn(g: Tags, inside: bool, s: string, idx: nat, soFar: Out)
    requires g.Valid() && Find(s, g.Sought(inside)) == idx
    ensures idx + |g.Sought(inside)| <= |s|
    ensures Drain(g, inside, s).After(soFar) ==
            Drain(g, !inside, s[idx + |g.Sought(inside)|..]).After(soFar.Plus(Emit(inside, s[..idx])))
  {
    var rest := s[idx + |g.Sought(inside)|..];
    DrainGoesOn(g, inside, s, idx, rest);
    AfterTwice(Drain(g, !inside, rest), Emit(inside, s[..idx]), soFar);
  }

  lemma EmptyIsFound(s: string)
    ensures Find(s, "") == 0
  {
  }

  // ----- when the loop ends -----

  // The state after one turn of the loop, None when the turn leaves the loop.
  // This reading needs no condition on the tags.
  function Turn(g: Tags, st: State): Option<State> {
    var idx := Find(st.buf, g.Sought(st.inside));
    if idx == -1 then None else Some(State(!st.inside, st.buf[idx + |g.Sought(st.inside)|..]))
  }

  // The state after n turns, None when the loop was left before.
  function Turns(g: Tags, st: State, n: nat): Option<State>
    decreases n
  {
    if n == 0 then Some(st)
    else
      var next := Turn(g, st);
      if next.None? then None else Turns(g, next.value, n - 1)
  }

  lemma {:induction false} LoopIsLeft(g: Tags, st: State) returns (n: nat)
    requires g.Valid()
    ensures Turns(g, st, n).None?
    decreases |st.buf|, g.Rank(st.inside)
  {
    hide Find;
    var next := Turn(g, st);
    if next.None? {
      n := 1;
    } else {
      n := LoopIsLeft(g, next.value);
      n := n + 1;
    }
  }

  // With two empty tags a turn consumes nothing and changes the side only.
  lemma {:induction false} EmptyTagsLoop(g: Tags, st: State, n: nat)
    requires g.open == "" && g.close == ""
    ensures Turns(g, st, n) == Some(State(if n % 2 == 0 then st.inside else !st.inside, st.buf))
    decreases n
  {
    if n > 0 {
      EmptyIsFound(st.buf);
      hide Find;
      assert st.buf[0..] == st.buf;
      EmptyTagsLoop(g, State(!st.inside, st.buf), n - 1);
    }
  }

  // The loop ends, from every state, exactly when the tags are not both empty.
  lemma FeedEndsExactly(g: Tags, st: State)
    ensures (exists n: nat :: Turns(g, st, n).None?) <==> g.open != "" || g.close != ""
  {
    if g.Valid() {
      var n := LoopIsLeft(g, st);
    } else {
      forall n: nat {
        EmptyTagsLoop(g, st, n);
      }
    }
  }

  class ReasoningSplitter {
    const tags: Tags
    var inside: bool
    var buf: string

    ghost function Abs(): State
      reads this
    {
      State(inside, buf)
    }

    constructor (tags: Tags)
      ensures this.tags == tags && Abs() == START
    {
      this.tags := tags;
      inside := false;
      buf := "";
    }

    method Feed(text: string) returns (visible: string, reasoning: string)
      requires tags.Valid()
      modifies this
      ensures Run(Out(visible, reasoning), Abs()) == FeedOnce(tags, old(Abs()), text)
    {
      hide Drain, Out.Plus, Emit, Hold, Find;
      if text != "" {
        buf := buf + text;
      }
      assert buf == old(buf) + text;
      ghost var all := Drain(tags, inside, buf);
      visible, reasoning := "", "";
      NothingBefore(all);
      while true
        invariant all == Drain(tags, inside, buf).After(Out(visible, reasoning))
        decreases |buf|, tags.Rank(inside)
      {
        if !inside {
          var idx := Find(buf, tags.open);
          if idx == -1 {
            var hold := HeldPartialLen(buf, tags.open);
            var cut := |buf| - hold;
            TurnEnds(tags, inside, buf, cut, Out(visible, reasoning));
            PlusEmit(Out(visible, reasoning), inside, buf[..cut]);
            visible := visible + buf[..cut];
            buf := buf[cut..];
            break;
          }
          TurnGoesOn(tags, inside, buf, idx, Out(visible, reasoning));
          PlusEmit(Out(visible, reasoning), inside, buf[..idx]);
          visible := visible + buf[..idx];
          buf := buf[idx + |tags.open|..];
          inside := true;
        } else {
          var idx := Find(buf, tags.close);
          if idx == -1 {
            var hold := HeldPartialLen(buf, tags.close);
            var cut := |buf| - hold;
            TurnEnds(tags, inside, buf, cut, Out(visible, reasoning));
            PlusEmit(Out(visible, reasoning), inside, buf[..cut]);
            reasoning := reasoning + buf[..cut];
            buf := buf[cut..];
            break;
          }
          TurnGoesOn(tags, inside, buf, idx, Out(visible, reasoning));
          PlusEmit(Out(visible, reasoning), inside, buf[..idx]);
          reasoning := reasoning + buf[..idx];
          buf := buf[idx + |tags.close|..];
          inside := false;
        }
      }
    }

    method Flush() returns (visible: string, reasoning: string)
      modifies this
      ensures Out(visible, reasoning) == FlushOut(old(Abs()))
      ensures Abs() == State(old(inside), "")
    {
      var rest := buf;
      buf := "";
      if inside {
        return "", rest;
      }
      return rest, "";
    }
  }

  method StripThinkBlocks(text: string) returns (visible: string, reasoning: string)
    ensures Out(visible, reasoning) == Received(DEFAULT_TAGS, [text])
  {
    hide Drain;
    var splitter := new ReasoningSplitter(DEFAULT_TAGS);
    var vis, rea := splitter.Feed(text);
    ghost var mid := splitter.Abs();
    var visTail, reaTail := splitter.Flush();
    visible, reasoning := vis + visTail, rea + reaTail;
    assert FeedAll(DEFAULT_TAGS, START, [text]) == Run(Out(vis, rea), mid) by {
      assert [text][1..] == [] && FeedAll(DEFAULT_TAGS, mid, []) == Run(NOTHING, mid);
      assert vis + "" == vis && rea + "" == rea;
    }
  }

  // ----- where a tag may still start -----

  // Nothing seen so far rules out that `tag` starts at `i`.
  ghost predicate MayStart(s: string, tag: string, i: nat) {
    i <= |s| && forall k :: 0 <= k < |tag| && i + k < |s| ==> s[i + k] == tag[k]
  }

  lemma OccurrenceStarts(s: string, tag: string, i: nat)
    ensures Occurs(s, tag, i) ==> MayStart(s, tag, i)
  {
    if Occurs(s, tag, i) {
      forall k | 0 <= k < |tag|
        ensures s[i + k] == tag[k]
      {
        assert s[i..i + |tag|][k] == tag[k];
      }
    }
  }

  // More text never lets a tag start where it already could not.
  lemma StartsOnlyWhereItCould(a: string, b: string, tag: string, i: nat)
    requires i <= |a|
    ensures MayStart(a + b, tag, i) ==> MayStart(a, tag, i)
    ensures !MayStart(a, tag, i) ==> !Occurs(a + b, tag, i)
  {
    if MayStart(a + b, tag, i) {
      forall k | 0 <= k < |tag| && i + k < |a|
        ensures a[i + k] == tag[k]
      {
        assert (a + b)[i + k] == a[i + k];
      }
    }
    OccurrenceStarts(a + b, tag, i);
  }

  // A tag that may start at `i` is there, or the text ends inside it.
  lemma StartCases(s: string, tag: string, i: nat)
    requires MayStart(s, tag, i)
    ensures if i + |tag| <= |s| then Occurs(s, tag, i) else IsPartialTag(s, tag, |s| - i)
  {
    if i + |tag| <= |s| {
      assert s[i..i + |tag|] == tag;
    } else {
      assert s[|s| - (|s| - i)..] == tag[..|s| - i];
    }
  }

  // Before the place where `Drain` cuts, no tag can start.
  lemma NoStartBeforeCut(s: string, tag: string, i: nat)
    requires tag != ""
    requires i < (if Find(s, tag) == -1 then |s| - Hold(s, tag) else Find(s, tag))
    ensures !MayStart(s, tag, i)
  {
    FindIsFirst(s, tag);
    HoldIsLongest(s, tag);
    if MayStart(s, tag, i) {
      StartCases(s, tag, i);
      assert false;
    }
  }

  lemma OccursShift(p: string, w: string, tag: string, i: nat)
    ensures Occurs(p + w, tag, |p| + i) <==> Occurs(w, tag, i)
  {
    if i + |tag| <= |w| {
      assert (p + w)[|p| + i..|p| + i + |tag|] == w[i..i + |tag|];
    }
  }

  lemma FindShift(p: string, w: string, tag: string)
    requires forall i: nat :: i < |p| ==> !Occurs(p + w, tag, i)
    ensures Find(p + w, tag) == if Find(w, tag) == -1 then -1 else |p| + Find(w, tag)
  {
    FindIsFirst(p + w, tag);
    FindIsFirst(w, tag);
    var f, h := Find(p + w, tag), Find(w, tag);
    if h != -1 {
      OccursShift(p, w, tag, h);
    }
    if f != -1 {
      OccursShift(p, w, tag, f - |p|);
    }
  }

  lemma HoldShift(p: string, w: string, tag: string)
    requires tag != ""
    requires forall i: nat :: i < |p| ==> !MayStart(p + w, tag, i)
    ensures Hold(p + w, tag) == Hold(w, tag)
  {
    hide Hold;
    HoldIsLongest(p + w, tag);
    HoldIsLongest(w, tag);
    var all, n, m := p + w, Hold(p + w, tag), Hold(w, tag);
    PartialTagStarts(all, tag, n);
    assert n <= |w|;
    assert all[|all| - n..] == w[|w| - n..];
    assert all[|all| - m..] == w[|w| - m..];
    assert IsPartialTag(w, tag, n) && IsPartialTag(all, tag, m);
  }

  lemma PartialTagStarts(s: string, tag: string, n: nat)
    requires IsPartialTag(s, tag, n)
    ensures MayStart(s, tag, |s| - n)
  {
    forall k | 0 <= k < n
      ensures s[|s| - n + k] == tag[k]
    {
      assert s[|s| - n..][k] == tag[..n][k];
    }
  }

  // A prefix in which no tag can start is emitted as it is.
  lemma DrainPrefix(g: Tags, inside: bool, p: string, w: string, all: string)
    requires g.Valid() && all == p + w
    requires forall i: nat :: i < |p| ==> !MayStart(all, g.Sought(inside), i)
    ensures Drain(g, inside, all) == Drain(g, inside, w).After(Emit(inside, p))
  {
    var tag := g.Sought(inside);
    forall i: nat | i < |p|
      ensures !Occurs(all, tag, i)
    {
      OccurrenceStarts(all, tag, i);
    }
    FindShift(p, w, tag);
    var idx := Find(w, tag);
    if idx == -1 {
      HoldShift(p, w, tag);
      DrainPrefixEnds(g, inside, p, w, all);
    } else {
      DrainPrefixGoesOn(g, inside, p, w, all, idx);
    }
  }

  lemma DrainPrefixEnds(g: Tags, inside: bool, p: string, w: string, all: string)
    requires g.Valid() && all == p + w
    requires Find(w, g.Sought(inside)) == -1 == Find(all, g.Sought(inside))
    requires Hold(all, g.Sought(inside)) == Hold(w, g.Sought(inside))
    ensures Drain(g, inside, all) == Drain(g, inside, w).After(Emit(inside, p))
  {
    var cut := |w| - Hold(w, g.Sought(inside));
    DrainEnds(g, inside, all, |p| + cut);
    DrainEnds(g, inside, w, cut);
    assert all[..|p| + cut] == p + w[..cut];
    assert all[|p| + cut..] == w[cut..];
  }

  lemma DrainPrefixGoesOn(g: Tags, inside: bool, p: string, w: string, all: string, idx: nat)
    requires g.Valid() && all == p + w
    requires Find(w, g.Sought(inside)) == idx && Find(all, g.Sought(inside)) == |p| + idx
    ensures Drain(g, inside, all) == Drain(g, inside, w).After(Emit(inside, p))
  {
    hide Drain, Out.Plus, Find;
    var rest := w[idx + |g.Sought(inside)|..];
    assert all[|p| + idx + |g.Sought(inside)|..] == rest;
    assert all[..|p| + idx] == p + w[..idx];
    DrainGoesOn(g, inside, all, |p| + idx, rest);
    DrainGoesOn(g, inside, w, idx, rest);
    AfterTwice(Drain(g, !inside, rest), Emit(inside, w[..idx]), Emit(inside, p));
    PlusEmit(Emit(inside, p), inside, w[..idx]);
  }

  // ----- chunking invariance -----

  // Draining two pieces one after the other is draining them together.
  lemma {:induction false} DrainAppend(g: Tags, inside: bool, a: string, b: string, all: string)
    requires g.Valid() && all == a + b
    ensures Drain(g, inside, all) == FeedOnce(g, Drain(g, inside, a).st, b).After(Drain(g, inside, a).out)
    decreases |a|, g.Rank(inside)
  {
    var tag := g.Sought(inside);
    var idx := Find(a, tag);
    var cut := if idx == -1 then |a| - Hold(a, tag) else idx;
    forall i: nat | i < cut
      ensures !MayStart(all, tag, i) && !Occurs(all, tag, i)
    {
      NoStartBeforeCut(a, tag, i);
      StartsOnlyWhereItCould(a, b, tag, i);
    }
    if idx == -1 {
      var held := a[cut..];
      assert all == a[..cut] + (held + b);
      DrainPrefix(g, inside, a[..cut], held + b, all);
      DrainEnds(g, inside, a, cut);
    } else {
      var rest := a[idx + |tag|..];
      FindIsFirst(a, tag);
      assert all[idx..idx + |tag|] == a[idx..idx + |tag|];
      FindUnique(all, tag, idx);
      assert all[..idx] == a[..idx];
      assert all[idx + |tag|..] == rest + b;
      DrainAppend(g, !inside, rest, b, rest + b);
      DrainGoesOn(g, inside, a, idx, rest);
      DrainGoesOn(g, inside, all, idx, rest + b);
      var first := Drain(g, !inside, rest);
      AfterTwice(FeedOnce(g, first.st, b), first.out, Emit(inside, a[..idx]));
    }
  }

  ghost predicate Settled(g: Tags, st: State)
    requires g.Valid()
  {
    Drain(g, st.inside, st.buf) == Run(NOTHING, st)
  }

  lemma HeldSettled(g: Tags, inside: bool, held: string)
    requires g.Valid() && IsPartialTag(held, g.Sought(inside), |held|)
    ensures Settled(g, State(inside, held))
  {
    var tag := g.Sought(inside);
    HoldUnique(held, tag, |held|);
    assert held[..0] == "" && held[0..] == held;
  }

  // `feed` leaves nothing in the buffer that it could already have emitted, and
  // stops only when it looks for a tag that is not empty.
  lemma {:induction false} DrainSettles(g: Tags, inside: bool, buf: string, run: Run)
    requires g.Valid() && run == Drain(g, inside, buf)
    ensures Settled(g, run.st) && g.Sought(run.st.inside) != ""
    decreases |buf|, g.Rank(inside)
  {
    hide Drain, Find, Hold, Settled;
    var tag := g.Sought(inside);
    var idx := Find(buf, tag);
    EmptyIsFound(buf);
    if idx == -1 {
      HoldIsLongest(buf, tag);
      var h := Hold(buf, tag);
      var held := buf[|buf| - h..];
      assert held[|held| - h..] == held;
      HeldSettled(g, inside, held);
      DrainEnds(g, inside, buf, |buf| - h);
    } else {
      var rest := buf[idx + |tag|..];
      DrainGoesOn(g, inside, buf, idx, rest);
      DrainSettles(g, !inside, rest, Drain(g, !inside, rest));
    }
  }

  lemma StartSettled(g: Tags)
    requires g.open != ""
    ensures Settled(g, START)
  {
    assert ""[..0] == "";
  }

  // Feeding chunks one by one equals feeding their concatenation at once:
  // the same output and the same state, whatever the cuts. The first call
  // settles the state, if it was not so from the start.
  lemma {:induction false} FeedAllIsOneFeed(g: Tags, st: State, chunks: seq<string>)
    requires g.Valid() && (chunks != [] || Settled(g, st))
    ensures FeedAll(g, st, chunks) == FeedOnce(g, st, Concat(chunks))
    decreases |chunks|
  {
    hide Drain;
    if chunks == [] {
      assert st.buf + "" == st.buf;
    } else {
      var first := FeedOnce(g, st, chunks[0]);
      DrainSettles(g, st.inside, st.buf + chunks[0], first);
      FeedAllIsOneFeed(g, first.st, chunks[1..]);
      var rest := Concat(chunks[1..]);
      var all := st.buf + Concat(chunks);
      assert all == st.buf + chunks[0] + rest;
      DrainAppend(g, st.inside, st.buf + chunks[0], rest, all);
    }
  }

  lemma {:induction false} FeedAllSnoc(g: Tags, st: State, chunks: seq<string>, c: string)
    requires g.Valid()
    ensures FeedAll(g, st, chunks + [c]) ==
            FeedOnce(g, FeedAll(g, st, chunks).st, c).After(FeedAll(g, st, chunks).out)
    decreases |chunks|
  {
    hide FeedOnce, Out.Plus;
    if chunks == [] {
      var only := FeedOnce(g, st, c);
      assert [c][1..] == [] && FeedAll(g, only.st, []) == Run(NOTHING, only.st);
      NothingBefore(only);
      NothingAfter(only.out);
      assert chunks + [c] == [c];
    } else {
      var first := FeedOnce(g, st, chunks[0]);
      FeedAllSnoc(g, first.st, chunks[1..], c);
      assert (chunks + [c])[1..] == chunks[1..] + [c];
      var before := FeedAll(g, first.st, chunks[1..]);
      AfterTwice(FeedOnce(g, before.st, c), before.out, first.out);
    }
  }

  lemma NothingAfter(out: Out)
    ensures out.Plus(NOTHING) == out
  {
    assert out.visible + "" == out.visible && out.reasoning + "" == out.reasoning;
  }

  // ----- the independent description of the cut -----

  // `segs` are the pieces of `text` between alternating tags, each piece
  // ending where its tag first occurs and the last one free of its tag.
  ghost predicate Segments(g: Tags, inside: bool, text: string, segs: seq<string>)
    decreases |segs|
  {
    && segs != []
    && var tag := g.Sought(inside);
       if |segs| == 1 then
         text == segs[0] && forall i: nat :: !Occurs(text, tag, i)
       else
         && segs[0] <= text
         && Occurs(text, tag, |segs[0]|)
         && (forall i: nat :: i < |segs[0]| ==> !Occurs(text, tag, i))
         && Segments(g, !inside, text[|segs[0]| + |tag|..], segs[1..])
  }

  // Even pieces are visible and odd pieces are reasoning, or the reverse
  // when the text starts inside a reasoning block.
  function Gather(inside: bool, segs: seq<string>): Out
    decreases |segs|
  {
    if segs == [] then NOTHING
    else Emit(inside, segs[0]).Plus(Gather(!inside, segs[1..]))
  }

  function Weave(g: Tags, inside: bool, segs: seq<string>): string
    decreases |segs|
  {
    if segs == [] then ""
    else if |segs| == 1 then segs[0]
    else segs[0] + g.Sought(inside) + Weave(g, !inside, segs[1..])
  }

  lemma {:induction false} SegmentsExist(g: Tags, inside: bool, text: string) returns (segs: seq<string>)
    requires g.Valid()
    ensures Segments(g, inside, text, segs)
    decreases |text|, g.Rank(inside)
  {
    var tag := g.Sought(inside);
    var idx := Find(text, tag);
    FindIsFirst(text, tag);
    if idx == -1 {
      segs := [text];
    } else {
      var rest := SegmentsExist(g, !inside, text[idx + |tag|..]);
      segs := [text[..idx]] + rest;
      assert segs[1..] == rest;
    }
  }

  // No character is lost or reordered: the pieces and the tags between them
  // are the text.
  lemma {:induction false} SegmentsWeave(g: Tags, inside: bool, text: string, segs: seq<string>)
    requires Segments(g, inside, text, segs)
    ensures Weave(g, inside, segs) == text
    decreases |segs|
  {
    if |segs| > 1 {
      var tag := g.Sought(inside);
      var n, m := |segs[0]|, |segs[0]| + |tag|;
      SegmentsWeave(g, !inside, text[m..], segs[1..]);
      assert Occurs(text, tag, n) && text[..n] == segs[0];
      Reassemble(text, n, m);
    }
  }

  lemma Reassemble(s: string, n: nat, m: nat)
    requires n <= m <= |s|
    ensures s == s[..n] + s[n..m] + s[m..]
  {
  }

  lemma {:induction false} DrainFollowsSegments(g: Tags, inside: bool, text: string, segs: seq<string>)
    requires g.Valid() && Segments(g, inside, text, segs)
    ensures var run := Drain(g, inside, text);
            && run.out.Plus(FlushOut(run.st)) == Gather(inside, segs)
            && run.st.inside == (if |segs| % 2 == 1 then inside else !inside)
            && IsHeldTail(g, run.st, segs[|segs| - 1])
    decreases |segs|
  {
    hide Drain, Segments, IsHeldTail, Out.Plus, Find;
    SegmentsHead(g, inside, text, segs);
    if |segs| == 1 {
      LastSegment(g, inside, text);
    } else {
      var rest := text[|segs[0]| + |g.Sought(inside)|..];
      DrainFollowsSegments(g, !inside, rest, segs[1..]);
      DrainGoesOn(g, inside, text, |segs[0]|, rest);
      var run := Drain(g, !inside, rest);
      OutAssoc(Emit(inside, segs[0]), run.out, FlushOut(run.st));
    }
  }

  lemma SegmentsHead(g: Tags, inside: bool, text: string, segs: seq<string>)
    requires Segments(g, inside, text, segs)
    ensures var tag := g.Sought(inside);
            && segs != []
            && if |segs| == 1 then
                 segs == [text] && Find(text, tag) == -1
               else
                 && Find(text, tag) == |segs[0]|
                 && text[..|segs[0]|] == segs[0]
                 && Segments(g, !inside, text[|segs[0]| + |tag|..], segs[1..])
  {
    var tag := g.Sought(inside);
    FindIsFirst(text, tag);
    if |segs| > 1 {
      FindUnique(text, tag, |segs[0]|);
    }
  }

  lemma OutAssoc(a: Out, b: Out, c: Out)
    ensures a.Plus(b).Plus(c) == a.Plus(b.Plus(c))
  {
    assert a.visible + b.visible + c.visible == a.visible + (b.visible + c.visible);
    assert a.reasoning + b.reasoning + c.reasoning == a.reasoning + (b.reasoning + c.reasoning);
  }

  lemma LastSegment(g: Tags, inside: bool, text: string)
    requires g.Valid() && Find(text, g.Sought(inside)) == -1
    ensures var run := Drain(g, inside, text);
            && run.out.Plus(FlushOut(run.st)) == Gather(inside, [text])
            && run.st.inside == inside
            && IsHeldTail(g, run.st, text)
  {
    hide Drain, Find, Hold, IsLongestPartialTag;
    EmptyIsFound(text);
    var cut := |text| - Hold(text, g.Sought(inside));
    DrainEnds(g, inside, text, cut);
    HoldIsLongest(text, g.Sought(inside));
    assert text == text[..cut] + text[cut..];
    assert [text][1..] == [];
  }

  // The buffer is the longest suffix of the piece in progress that is a
  // proper prefix of the tag being looked for.
  ghost predicate IsHeldTail(g: Tags, st: State, piece: string) {
    && |st.buf| <= |piece|
    && st.buf == piece[|piece| - |st.buf|..]
    && IsLongestPartialTag(piece, g.Sought(st.inside), |st.buf|)
  }

  // What is received does not depend on the cuts, nor on there being any chunk.
  lemma ReceivedInOneFeed(g: Tags, chunks: seq<string>)
    requires g.Valid()
    ensures var run := FeedOnce(g, START, Concat(chunks));
            Received(g, chunks) == run.out.Plus(FlushOut(run.st))
    ensures chunks != [] || g.open != "" ==> FeedAll(g, START, chunks) == FeedOnce(g, START, Concat(chunks))
  {
    if chunks != [] {
      FeedAllIsOneFeed(g, START, chunks);
    } else if g.open != "" {
      StartSettled(g);
      FeedAllIsOneFeed(g, START, chunks);
    } else {
      NothingFed(g);
    }
  }

  // With an empty open tag the first call, even with no text, goes inside.
  lemma NothingFed(g: Tags)
    requires g.Valid() && g.open == ""
    ensures FeedOnce(g, START, "") == Run(NOTHING, State(true, ""))
  {
    EmptyIsFound("");
    DrainGoesOn(g, false, "", 0, "");
    assert Find("", g.close) == -1;
    DrainEnds(g, true, "", 0);
    assert ""[..0] == "" && ""[0..] == "";
  }

  // For every text and every way of cutting it into chunks: what was received
  // is the visible and the reasoning pieces of the whole text, and between
  // calls only an unfinished tag is held back.
  lemma ChunkingInvariance(g: Tags, chunks: seq<string>, segs: seq<string>)
    requires g.Valid() && Segments(g, false, Concat(chunks), segs)
    ensures Received(g, chunks) == Gather(false, segs)
    ensures Weave(g, false, segs) == Concat(chunks)
    ensures var st := FeedAll(g, START, chunks).st;
            chunks != [] || g.open != "" ==>
              st.inside == (|segs| % 2 == 0) && IsHeldTail(g, st, segs[|segs| - 1])
  {
    hide Drain, FeedAll, Segments, Gather, Weave, Concat, IsHeldTail, Settled, Received;
    ReceivedInOneFeed(g, chunks);
    assert "" + Concat(chunks) == Concat(chunks);
    DrainFollowsSegments(g, false, Concat(chunks), segs);
    SegmentsWeave(g, false, Concat(chunks), segs);
  }

  // Two ways of cutting the same text give the same output always, and the same
  // state but when the open tag is empty and one of them is no chunk at all.
  lemma CutsDoNotMatter(g: Tags, chunks: seq<string>, chunks': seq<string>)
    requires g.Valid() && Concat(chunks) == Concat(chunks')
    ensures Received(g, chunks) == Received(g, chunks')
    ensures FeedAll(g, START, chunks).st == FeedAll(g, START, chunks').st
            <==> g.open != "" || (chunks == [] <==> chunks' == [])
  {
    hide Drain, FeedOnce, Received;
    ReceivedInOneFeed(g, chunks);
    ReceivedInOneFeed(g, chunks');
    if g.open == "" {
      NothingFed(g);
    }
  }

  // A text without the open tag is entirely visible.
  lemma NoTagAllVisible(g: Tags, text: string)
    requires g.Valid() && forall i: nat :: !Occurs(text, g.open, i)
    ensures Received(g, [text]) == Out(text, "")
  {
    assert [text][1..] == [];
    assert text + "" == text;
    assert Segments(g, false, text, [text]);
    ChunkingInvariance(g, [text], [text]);
  }

  // ----- which pieces are visible -----

  // Every other piece, from the first or from the second on.
  function EveryOther(segs: seq<string>, first: bool): seq<string> {
    seq(|segs|, i requires 0 <= i < |segs| => if (i % 2 == 0) == first then segs[i] else "")
  }

  // Outside a block the even pieces are visible and the odd ones reasoning;
  // inside one it is the reverse.
  lemma {:induction false} GatheredPieces(inside: bool, segs: seq<string>)
    ensures Gather(inside, segs) == Out(Concat(EveryOther(segs, !inside)), Concat(EveryOther(segs, inside)))
    decreases |segs|
  {
    if segs == [] {
      assert EveryOther(segs, true) == [] && EveryOther(segs, false) == [];
    } else {
      GatheredPieces(!inside, segs[1..]);
      assert EveryOther(segs, true) == [segs[0]] + EveryOther(segs[1..], false);
      assert EveryOther(segs, false) == [""] + EveryOther(segs[1..], true);
      assert "" + Concat(EveryOther(segs[1..], true)) == Concat(EveryOther(segs[1..], true));
      assert Concat(EveryOther(segs, true)) == segs[0] + Concat(EveryOther(segs[1..], false));
      assert Concat(EveryOther(segs, false)) == Concat(EveryOther(segs[1..], true));
    }
  }
}
