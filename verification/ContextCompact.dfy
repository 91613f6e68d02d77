// Compacting a conversation before it is sent to a model
// (backend/app/context_compact.py:54-320).
module ContextCompact {
  import opened Basics
  import opened PyText

  // A message. `content` is None for a null content; `calls` holds the ids of
  // `tool_calls`, None when the message has no such key; `rest` stands for any
  // other key.
  datatype Message = Message(role: string, content: Option<string>, calls: Option<seq<string>>,
                             callId: Option<string>, rest: string)

  predicate FromAssistant(m: Message) {
    m.role == "assistant"
  }

  predicate FromTool(m: Message) {
    m.role == "tool"
  }

  function Text(m: Message): string {
    if m.content.Some? then m.content.value else ""
  }

  const MAX_HISTORY_CHARS := 30000
  const COMPACT_TRIGGER_ROUNDS := 8
  const KEEP_RECENT_ROUNDS := 4
  const MAX_ASSISTANT_CHARS := 500
  const MAX_ROUNDS := 6
  const MAX_OLD_RESULT_CHARS := 200

  const FENCE := "```"
  const OMITTED := "[代码已省略]"
  const CUT := "...[截断]"
  const SUMMARY_MARKER := "[对话摘要]"

  // ----- the text of an assistant message -----

  // The substitution of every fenced block, leftmost and shortest first.
  function StripCode(s: string): string
    decreases |s|
  {
    var i := Find(s, FENCE);
    if i == -1 then s
    else
      var rest := s[i + 3..];
      var j := Find(rest, FENCE);
      if j == -1 then s else s[..i] + OMITTED + StripCode(rest[j + 3..])
  }

  function Shorten(content: string): string {
    var summary := StripCode(content);
    if |summary| > MAX_ASSISTANT_CHARS then summary[..MAX_ASSISTANT_CHARS] + CUT else summary
  }

  ghost predicate HasBlock(s: string) {
    exists i: nat, j: nat :: i + 3 <= j && Occurs(s, FENCE, i) && Occurs(s, FENCE, j)
  }

  ghost predicate NoTick(s: string) {
    forall k :: 0 <= k < |s| ==> s[k] != '`'
  }

  // A fence in a text with a tick-free stretch in the middle is in one of the ends.
  lemma FenceAvoids(a: string, mid: string, b: string, k: nat)
    requires mid != "" && NoTick(mid) && Occurs(a + mid + b, FENCE, k)
    ensures Occurs(a, FENCE, k) || (k >= |a| + |mid| && Occurs(b, FENCE, k - |a| - |mid|))
  {
    var s := a + mid + b;
    assert s[k..k + 3] == FENCE;
    assert s[k] == '`' && s[k + 1] == '`' && s[k + 2] == '`' by {
      assert s[k] == s[k..k + 3][0] && s[k + 1] == s[k..k + 3][1] && s[k + 2] == s[k..k + 3][2];
    }
    forall x | |a| <= x < |a| + |mid|
      ensures s[x] != '`'
    {
      assert s[x] == mid[x - |a|];
    }
    assert s[|a|] != '`' && s[|a| + |mid| - 1] != '`';
    if k + 3 <= |a| {
      assert a[k..k + 3] == s[k..k + 3];
    } else {
      assert k >= |a| + |mid|;
      var o := k - |a| - |mid|;
      assert b[o..o + 3] == s[k..k + 3];
    }
  }

  lemma ClearAfter(s: string, i: nat, j: nat)
    ensures !HasBlock(s) && i + 3 <= j && Occurs(s, FENCE, i) ==> !Occurs(s, FENCE, j)
  {
  }

  lemma OccursInTail(s: string, from: nat, y: nat)
    requires from <= y && Occurs(s, FENCE, y)
    ensures Occurs(s[from..], FENCE, y - from)
  {
    assert s[from..][y - from..y - from + 3] == s[y..y + 3];
  }

  lemma OccursBack(s: string, from: nat, k: nat)
    requires from <= |s|
    ensures Occurs(s[from..], FENCE, k) ==> Occurs(s, FENCE, from + k)
  {
    if Occurs(s[from..], FENCE, k) {
      assert s[from + k..from + k + 3] == s[from..][k..k + 3];
    }
  }

  lemma OccursInFront(s: string, n: nat, k: nat)
    requires n <= |s|
    ensures Occurs(s[..n], FENCE, k) ==> Occurs(s, FENCE, k)
  {
    if Occurs(s[..n], FENCE, k) {
      assert s[k..k + 3] == s[..n][k..k + 3];
    }
  }

  lemma LoneFence(s: string, i: nat, rest: string)
    requires i + 3 <= |s| && rest == s[i + 3..]
    requires forall k: nat :: k < i ==> !Occurs(s, FENCE, k)
    requires forall k: nat :: !Occurs(rest, FENCE, k)
    ensures !HasBlock(s)
  {
    forall x: nat, y: nat | x + 3 <= y && Occurs(s, FENCE, x)
      ensures !Occurs(s, FENCE, y)
    {
      assert x >= i;
      if Occurs(s, FENCE, y) {
        OccursInTail(s, i + 3, y);
      }
    }
  }

  // No complete code block is left.
  lemma {:induction false} StripCodeClean(s: string)
    ensures !HasBlock(StripCode(s))
    decreases |s|
  {
    hide Occurs, Find;
    FindIsFirst(s, FENCE);
    var i := Find(s, FENCE);
    if i != -1 {
      var rest := s[i + 3..];
      FindIsFirst(rest, FENCE);
      var j := Find(rest, FENCE);
      if j == -1 {
        LoneFence(s, i, rest);
      } else {
        StripCodeClean(rest[j + 3..]);
        JoinedClean(s[..i], StripCode(rest[j + 3..]), s, i);
      }
    }
  }

  lemma JoinedClean(a: string, b: string, s: string, i: nat)
    requires i <= |s| && a == s[..i] && !HasBlock(b)
    requires forall k: nat :: k < i ==> !Occurs(s, FENCE, k)
    ensures !HasBlock(a + OMITTED + b)
  {
    var t := a + OMITTED + b;
    forall k: nat | Occurs(t, FENCE, k)
      ensures k >= i + |OMITTED| && Occurs(b, FENCE, k - i - |OMITTED|)
    {
      FenceAvoids(a, OMITTED, b, k);
      OccursInFront(s, i, k);
    }
    forall x: nat, y: nat | x + 3 <= y && Occurs(t, FENCE, x)
      ensures !Occurs(t, FENCE, y)
    {
      ClearAfter(b, x - i - |OMITTED|, y - i - |OMITTED|);
    }
  }

  lemma StripCodeKeeps(s: string)
    ensures HasBlock(s) || StripCode(s) == s
  {
    FindIsFirst(s, FENCE);
    var i := Find(s, FENCE);
    if i != -1 {
      var rest := s[i + 3..];
      FindIsFirst(rest, FENCE);
      var j := Find(rest, FENCE);
      if j != -1 {
        OccursBack(s, i + 3, j);
        ClearAfter(s, i, i + 3 + j);
      }
    }
  }

  lemma CutClean(s: string, n: nat)
    requires n <= |s| && !HasBlock(s)
    ensures !HasBlock(s[..n] + CUT)
  {
    var t := s[..n] + CUT;
    assert t == s[..n] + CUT + "";
    forall k: nat | Occurs(t, FENCE, k)
      ensures Occurs(s, FENCE, k)
    {
      FenceAvoids(s[..n], CUT, "", k);
      OccursInFront(s, n, k);
    }
    forall x: nat, y: nat | x + 3 <= y && Occurs(t, FENCE, x)
      ensures !Occurs(t, FENCE, y)
    {
      ClearAfter(s, x, y);
    }
  }

  // A shortened text is not shortened any further, and it is short.
  lemma ShortenIsStable(content: string)
    ensures Shorten(Shorten(content)) == Shorten(content)
    ensures |Shorten(content)| <= MAX_ASSISTANT_CHARS + |CUT|
    ensures !HasBlock(Shorten(content))
  {
    hide StripCode, HasBlock;
    var summary := StripCode(content);
    StripCodeClean(content);
    if |summary| > MAX_ASSISTANT_CHARS {
      CutClean(summary, MAX_ASSISTANT_CHARS);
      var short := summary[..MAX_ASSISTANT_CHARS] + CUT;
      StripCodeKeeps(short);
      assert short[..MAX_ASSISTANT_CHARS] == summary[..MAX_ASSISTANT_CHARS];
    } else {
      StripCodeKeeps(summary);
    }
  }

  // ----- rounds -----

  function Flatten(rounds: seq<seq<Message>>): seq<Message> {
    if rounds == [] then [] else rounds[0] + Flatten(rounds[1..])
  }

  // The closed rounds of a list of messages, and the messages after the last
  // assistant message.
  function Closed(ms: seq<Message>): seq<seq<Message>> {
    if ms == [] then []
    else
      var n := |ms| - 1;
      if FromAssistant(ms[n]) then Closed(ms[..n]) + [Open(ms[..n]) + [ms[n]]] else Closed(ms[..n])
  }

  function Open(ms: seq<Message>): seq<Message> {
    if ms == [] then []
    else
      var n := |ms| - 1;
      if FromAssistant(ms[n]) then [] else Open(ms[..n]) + [ms[n]]
  }

  function Rounds(ms: seq<Message>): seq<seq<Message>> {
    Closed(ms) + (if Open(ms) == [] then [] else [Open(ms)])
  }

  // A round that ends with its only assistant message.
  ghost predicate IsRound(r: seq<Message>) {
    r != [] && FromAssistant(r[|r| - 1]) && forall i :: 0 <= i < |r| - 1 ==> !FromAssistant(r[i])
  }

  method PairRounds(messages: seq<Message>) returns (rounds: seq<seq<Message>>)
    ensures rounds == Rounds(messages)
    ensures Flatten(rounds) == messages
    ensures forall i :: 0 <= i < |rounds| - 1 ==> IsRound(rounds[i])
    ensures rounds != [] ==> IsRound(rounds[|rounds| - 1])
                             || (rounds[|rounds| - 1] != [] && forall m :: m in rounds[|rounds| - 1] ==> !FromAssistant(m))
  {
    hide Flatten, IsRound;
    rounds := [];
    var current: seq<Message> := [];
    for k := 0 to |messages|
      invariant rounds == Closed(messages[..k]) && current == Open(messages[..k])
    {
      assert messages[..k + 1][..k] == messages[..k];
      current := current + [messages[k]];
      if FromAssistant(messages[k]) {
        rounds := rounds + [current];
        current := [];
      }
    }
    assert messages[..|messages|] == messages;
    if current != [] {
      rounds := rounds + [current];
    }
    RoundsCover(messages);
  }

  lemma {:induction false} FlattenAppend(a: seq<seq<Message>>, b: seq<seq<Message>>)
    ensures Flatten(a + b) == Flatten(a) + Flatten(b)
  {
    if a == [] {
      assert a + b == b;
    } else {
      assert (a + b)[1..] == a[1..] + b;
      FlattenAppend(a[1..], b);
    }
  }

  lemma FlattenOne(r: seq<Message>)
    ensures Flatten([r]) == r
  {
    assert [r][1..] == [];
  }

  lemma {:induction false} ClosedCover(ms: seq<Message>)
    ensures Flatten(Closed(ms)) + Open(ms) == ms
    ensures forall r :: r in Closed(ms) ==> IsRound(r)
    ensures forall m :: m in Open(ms) ==> !FromAssistant(m)
    ensures |Closed(ms)| == Assistants(ms)
    decreases |ms|
  {
    hide IsRound;
    if ms != [] {
      hide Flatten;
      var n := |ms| - 1;
      ClosedCover(ms[..n]);
      assert ms == ms[..n] + [ms[n]];
      if FromAssistant(ms[n]) {
        var last := Open(ms[..n]) + [ms[n]];
        FlattenAppend(Closed(ms[..n]), [last]);
        FlattenOne(last);
        LastRound(Open(ms[..n]), ms[n]);
        assert Flatten(Closed(ms)) + [] == Flatten(Closed(ms));
        assert Flatten(Closed(ms[..n])) + last == (Flatten(Closed(ms[..n])) + Open(ms[..n])) + [ms[n]];
      } else {
        assert Flatten(Closed(ms)) + Open(ms) == (Flatten(Closed(ms[..n])) + Open(ms[..n])) + [ms[n]];
      }
    }
  }

  lemma LastRound(open: seq<Message>, m: Message)
    requires FromAssistant(m) && forall x :: x in open ==> !FromAssistant(x)
    ensures IsRound(open + [m])
  {
  }

  // The rounds cover the messages, and all but the last end with their only
  // assistant message.
  lemma RoundsCover(ms: seq<Message>)
    ensures Flatten(Rounds(ms)) == ms
    ensures var rs := Rounds(ms);
            && (forall i :: 0 <= i < |rs| - 1 ==> IsRound(rs[i]))
            && (rs != [] ==> IsRound(rs[|rs| - 1]) || (rs[|rs| - 1] != [] && forall m :: m in rs[|rs| - 1] ==> !FromAssistant(m)))
    ensures |Rounds(ms)| == RoundCount(ms)
  {
    hide Flatten, Closed, IsRound, Assistants;
    ClosedCover(ms);
    if Open(ms) == [] {
      assert Flatten(Closed(ms)) + [] == Flatten(Closed(ms));
      assert Rounds(ms) == Closed(ms);
    } else {
      FlattenAppend(Closed(ms), [Open(ms)]);
      FlattenOne(Open(ms));
    }
    OpenIsTail(ms);
  }

  lemma OpenIsTail(ms: seq<Message>)
    ensures Open(ms) == [] <==> ms == [] || FromAssistant(ms[|ms| - 1])
  {
  }

  function Assistants(ms: seq<Message>): nat {
    if ms == [] then 0
    else Assistants(ms[..|ms| - 1]) + (if FromAssistant(ms[|ms| - 1]) then 1 else 0)
  }

  // The number of rounds: one per assistant message, and one for what follows
  // the last of them.
  function RoundCount(ms: seq<Message>): nat {
    Assistants(ms) + (if ms == [] || FromAssistant(ms[|ms| - 1]) then 0 else 1)
  }

  lemma {:induction false} AssistantsAppend(a: seq<Message>, b: seq<Message>)
    ensures Assistants(a + b) == Assistants(a) + Assistants(b)
    decreases |b|
  {
    if b == [] {
      assert a + b == a;
    } else {
      assert (a + b)[..|a + b| - 1] == a + b[..|b| - 1];
      AssistantsAppend(a, b[..|b| - 1]);
    }
  }

  lemma {:induction false} NoAssistants(ms: seq<Message>)
    requires forall m :: m in ms ==> !FromAssistant(m)
    ensures Assistants(ms) == 0
    decreases |ms|
  {
    if ms != [] {
      NoAssistants(ms[..|ms| - 1]);
    }
  }

  lemma {:induction false} OnePerRound(rounds: seq<seq<Message>>)
    requires forall r :: r in rounds ==> IsRound(r)
    ensures Assistants(Flatten(rounds)) == |rounds|
    ensures rounds != [] ==> Flatten(rounds) != [] && FromAssistant(Flatten(rounds)[|Flatten(rounds)| - 1])
  {
    if rounds != [] {
      var r := rounds[0];
      assert IsRound(r);
      OnePerRound(rounds[1..]);
      AssistantsAppend(r, Flatten(rounds[1..]));
      var front := r[..|r| - 1];
      forall m | m in front
        ensures !FromAssistant(m)
      {
        var i :| 0 <= i < |front| && front[i] == m;
        assert r[i] == m;
      }
      NoAssistants(front);
      assert Flatten(rounds) == r + Flatten(rounds[1..]);
    }
  }

  // Python's `s[-n:]`, which is all of s for n = 0.
  function LastOf<T>(s: seq<T>, n: nat): seq<T> {
    if n == 0 || |s| <= n then s else s[|s| - n..]
  }

  // Python's `s[:-n]`, which is empty for n = 0.
  function AllButLast<T>(s: seq<T>, n: nat): seq<T> {
    if n == 0 || |s| <= n then [] else s[..|s| - n]
  }

  method SplitByRounds(messages: seq<Message>, keepRecent: nat) returns (older: seq<Message>, recent: seq<Message>)
    ensures older == OlderPart(messages, keepRecent) && recent == RecentPart(messages, keepRecent)
    ensures older + recent == messages
  {
    hide Rounds;
    var rounds := PairRounds(messages);
    if |rounds| <= keepRecent {
      older, recent := [], messages;
    } else {
      var olderRounds := AllButLast(rounds, keepRecent);
      var recentRounds := LastOf(rounds, keepRecent);
      older := FlattenRounds(olderRounds);
      recent := FlattenRounds(recentRounds);
    }
    SplitCovers(messages, keepRecent);
  }

  method FlattenRounds(rounds: seq<seq<Message>>) returns (ms: seq<Message>)
    ensures ms == Flatten(rounds)
  {
    ms := [];
    for i := 0 to |rounds|
      invariant ms == Flatten(rounds[..i])
    {
      assert rounds[..i + 1] == rounds[..i] + [rounds[i]];
      FlattenAppend(rounds[..i], [rounds[i]]);
      FlattenOne(rounds[i]);
      ms := ms + rounds[i];
    }
    assert rounds[..|rounds|] == rounds;
  }

  function OlderPart(ms: seq<Message>, keep: nat): seq<Message> {
    if |Rounds(ms)| <= keep then [] else Flatten(AllButLast(Rounds(ms), keep))
  }

  function RecentPart(ms: seq<Message>, keep: nat): seq<Message> {
    if |Rounds(ms)| <= keep then ms else Flatten(LastOf(Rounds(ms), keep))
  }

  // The two parts are the messages again.
  lemma SplitCovers(ms: seq<Message>, keep: nat)
    ensures OlderPart(ms, keep) + RecentPart(ms, keep) == ms
  {
    hide Rounds, Flatten;
    RoundsCover(ms);
    var rs := Rounds(ms);
    if |rs| <= keep {
      assert [] + ms == ms;
    } else {
      assert AllButLast(rs, keep) + LastOf(rs, keep) == rs;
      FlattenAppend(AllButLast(rs, keep), LastOf(rs, keep));
    }
  }

  // The recent part is a tail of the messages with at most `keep` rounds, and
  // exactly that many when there are more.
  lemma RecentRounds(ms: seq<Message>, keep: nat)
    requires keep > 0
    ensures RoundCount(Flatten(LastOf(Rounds(ms), keep))) == if |Rounds(ms)| <= keep then |Rounds(ms)| else keep
  {
    hide Flatten, Closed, Open, Assistants, IsRound;
    ClosedCover(ms);
    OpenIsTail(ms);
    RoundsCover(ms);
    var rs := Rounds(ms);
    if |rs| > keep {
      var j := |rs| - keep;
      var tail := Closed(ms)[j..];
      assert forall r :: r in tail ==> r in Closed(ms);
      OnePerRound(tail);
      if Open(ms) == [] {
        assert rs == Closed(ms);
        assert LastOf(rs, keep) == tail;
      } else {
        assert LastOf(rs, keep) == tail + [Open(ms)];
        FlattenAppend(tail, [Open(ms)]);
        FlattenOne(Open(ms));
        AssistantsAppend(Flatten(tail), Open(ms));
        NoAssistants(Open(ms));
        assert Open(ms)[|Open(ms)| - 1] in Open(ms);
      }
    }
  }

  // ----- coding mode -----

  // What an assistant message becomes: its shortened text and its tool calls.
  function ShortenOne(m: Message): Message {
    if FromAssistant(m) then Message("assistant", Some(Shorten(Text(m))), m.calls, None, "") else m
  }

  function ShortenAll(ms: seq<Message>): seq<Message> {
    if ms == [] then [] else ShortenAll(ms[..|ms| - 1]) + [ShortenOne(ms[|ms| - 1])]
  }

  function Declares(m: Message): set<string> {
    if FromAssistant(m) && m.calls.Some? then set i | 0 <= i < |m.calls.value| :: m.calls.value[i] else {}
  }

  // The tool-call ids that the assistant messages of a list declare.
  function Declared(ms: seq<Message>): set<string> {
    if ms == [] then {} else Declared(ms[..|ms| - 1]) + Declares(ms[|ms| - 1])
  }

  predicate Orphan(m: Message, ids: set<string>) {
    FromTool(m) && !(m.callId.Some? && m.callId.value in ids)
  }

  function KeepAnswers(ms: seq<Message>): seq<Message> {
    if ms == [] then []
    else
      var n := |ms| - 1;
      KeepAnswers(ms[..n]) + (if Orphan(ms[n], Declared(ms[..n])) then [] else [ms[n]])
  }

  function Compacted(ms: seq<Message>, hasWorkspace: bool, maxRounds: nat): seq<Message> {
    if hasWorkspace then KeepAnswers(ShortenAll(Flatten(LastOf(Rounds(ms), maxRounds))))
    else LastOf(ms, maxRounds * 2)
  }

  method CompactCoding(messages: seq<Message>, hasWorkspace: bool, maxRounds: nat) returns (out: seq<Message>)
    ensures out == Compacted(messages, hasWorkspace, maxRounds)
  {
    hide Flatten, Rounds, Shorten;
    if messages == [] {
      NothingToCompact(hasWorkspace, maxRounds);
      return [];
    }
    if hasWorkspace {
      var rounds := PairRounds(messages);
      var recent := LastOf(rounds, maxRounds);
      var result := ShortenRounds(recent);
      out := DropOrphans(result);
    } else {
      out := LastOf(messages, maxRounds * 2);
    }
  }

  lemma NothingToCompact(hasWorkspace: bool, maxRounds: nat)
    ensures Compacted([], hasWorkspace, maxRounds) == []
  {
    assert Rounds([]) == [];
    assert LastOf<seq<Message>>([], maxRounds) == [];
  }

  method ShortenRounds(recent: seq<seq<Message>>) returns (result: seq<Message>)
    ensures result == ShortenAll(Flatten(recent))
  {
    hide Shorten;
    result := [];
    for i := 0 to |recent|
      invariant result == ShortenAll(Flatten(recent[..i]))
    {
      var round := recent[i];
      ghost var before := Flatten(recent[..i]);
      assert before + round[..0] == before;
      for j := 0 to |round|
        invariant result == ShortenAll(before + round[..j])
      {
        assert before + round[..j + 1] == (before + round[..j]) + [round[j]];
        ShortenSnoc(before + round[..j], round[j]);
        if FromAssistant(round[j]) {
          result := result + [Message("assistant", Some(Shorten(Text(round[j]))), round[j].calls, None, "")];
        } else {
          result := result + [round[j]];
        }
      }
      assert round[..|round|] == round;
      assert recent[..i + 1] == recent[..i] + [round];
      FlattenAppend(recent[..i], [round]);
      FlattenOne(round);
    }
    assert recent[..|recent|] == recent;
  }

  lemma ShortenSnoc(ms: seq<Message>, m: Message)
    ensures ShortenAll(ms + [m]) == ShortenAll(ms) + [ShortenOne(m)]
  {
    assert (ms + [m])[..|ms + [m]| - 1] == ms;
  }

  method DropOrphans(result: seq<Message>) returns (cleaned: seq<Message>)
    ensures cleaned == KeepAnswers(result)
  {
    var declared: set<string> := {};
    cleaned := [];
    for k := 0 to |result|
      invariant declared == Declared(result[..k]) && cleaned == KeepAnswers(result[..k])
    {
      var m := result[k];
      assert result[..k + 1][..k] == result[..k];
      if FromAssistant(m) {
        declared := declared + Declares(m);
        cleaned := cleaned + [m];
      } else if FromTool(m) {
        if m.callId.Some? && m.callId.value in declared {
          cleaned := cleaned + [m];
        }
      } else {
        cleaned := cleaned + [m];
      }
    }
    assert result[..|result|] == result;
  }

  lemma {:induction false} ShortenAt(ms: seq<Message>)
    ensures |ShortenAll(ms)| == |ms|
    ensures forall i :: 0 <= i < |ms| ==> ShortenAll(ms)[i] == ShortenOne(ms[i])
    decreases |ms|
  {
    hide ShortenOne;
    if ms != [] {
      ShortenAt(ms[..|ms| - 1]);
    }
  }

  // ----- what is kept -----

  // Whether the i-th message survives: all do but tool results whose call no
  // assistant message before it declares.
  ghost predicate Survives(ms: seq<Message>, i: nat)
    requires i < |ms|
  {
    !Orphan(ms[i], Declared(ms[..i]))
  }

  ghost predicate Increasing(at: seq<nat>, n: nat) {
    (forall j, k :: 0 <= j < k < |at| ==> at[j] < at[k]) && forall j :: 0 <= j < |at| ==> at[j] < n
  }

  ghost predicate Covers(ms: seq<Message>, at: seq<nat>) {
    forall i :: 0 <= i < |ms| ==> (Survives(ms, i) <==> i in at)
  }

  ghost predicate Copies(out: seq<Message>, ms: seq<Message>, at: seq<nat>)
    requires Increasing(at, |ms|)
  {
    |at| == |out| && forall j :: 0 <= j < |at| ==> out[j] == ShortenOne(ms[at[j]])
  }

  // `out` holds exactly the surviving messages of ms, in order, with the
  // assistant messages rewritten; `at` tells where each comes from.
  ghost predicate IsSelection(out: seq<Message>, ms: seq<Message>, at: seq<nat>) {
    Increasing(at, |ms|) && Covers(ms, at) && Copies(out, ms, at)
  }

  lemma ShortenDeclares(m: Message)
    ensures Declares(ShortenOne(m)) == Declares(m)
    ensures FromTool(ShortenOne(m)) == FromTool(m) && FromAssistant(ShortenOne(m)) == FromAssistant(m)
    ensures FromTool(m) ==> ShortenOne(m) == m
  {
  }

  lemma {:induction false} ShortenKeepsDeclared(ms: seq<Message>)
    ensures Declared(ShortenAll(ms)) == Declared(ms)
    decreases |ms|
  {
    hide Declares, ShortenOne;
    if ms != [] {
      var n := |ms| - 1;
      ShortenKeepsDeclared(ms[..n]);
      ShortenDeclares(ms[n]);
      assert ShortenAll(ms)[..|ShortenAll(ms)| - 1] == ShortenAll(ms[..n]);
    }
  }

  lemma SurvivesFront(ms: seq<Message>, n: nat, i: nat)
    requires i < n <= |ms|
    ensures Survives(ms[..n], i) == Survives(ms, i)
  {
    assert ms[..n][..i] == ms[..i];
  }

  lemma CoverGrows(ms: seq<Message>, n: nat, before: seq<nat>, at: seq<nat>)
    requires |ms| == n + 1 && Covers(ms[..n], before) && Increasing(before, n)
    requires at == if Survives(ms, n) then before + [n] else before
    ensures Covers(ms, at)
  {
    hide Survives;
    forall i | 0 <= i < |ms|
      ensures Survives(ms, i) <==> i in at
    {
      if i < n {
        SurvivesFront(ms, n, i);
        assert i in at <==> i in before;
      } else {
        assert i !in before;
        assert i in before + [n];
      }
    }
  }

  lemma SelectionGrows(out: seq<Message>, ms: seq<Message>, n: nat, before: seq<nat>) returns (at: seq<nat>)
    requires |ms| == n + 1 && IsSelection(out, ms[..n], before)
    ensures IsSelection(out + (if Survives(ms, n) then [ShortenOne(ms[n])] else []), ms, at)
  {
    hide Survives, ShortenOne, Covers;
    at := if Survives(ms, n) then before + [n] else before;
    CoverGrows(ms, n, before, at);
    assert out + [] == out;
  }

  // The messages that a compaction of the whole list keeps, by position.
  lemma {:induction false} KeptPositions(ms: seq<Message>) returns (at: seq<nat>)
    ensures IsSelection(KeepAnswers(ShortenAll(ms)), ms, at)
    decreases |ms|
  {
    if ms == [] {
      at := [];
    } else {
      var n := |ms| - 1;
      var before := KeptPositions(ms[..n]);
      hide KeepAnswers, ShortenAll, ShortenOne, Survives, IsSelection;
      at := SelectionGrows(KeepAnswers(ShortenAll(ms[..n])), ms, n, before);
      KeepStep(ms, n);
    }
  }

  lemma KeepStep(ms: seq<Message>, n: nat)
    requires |ms| == n + 1
    ensures KeepAnswers(ShortenAll(ms))
            == KeepAnswers(ShortenAll(ms[..n])) + (if Survives(ms, n) then [ShortenOne(ms[n])] else [])
  {
    hide Orphan, ShortenOne, Declared;
    ShortenKeepsDeclared(ms[..n]);
    OrphanShortened(ms[n], Declared(ms[..n]));
    var short := ShortenAll(ms);
    assert short[..|short| - 1] == ShortenAll(ms[..n]);
  }

  lemma OrphanShortened(m: Message, ids: set<string>)
    ensures Orphan(ShortenOne(m), ids) == Orphan(m, ids)
  {
  }

  // With a workspace, the compacted list is the messages of the last rounds, in
  // order, with assistant messages rewritten, less the orphaned tool results.
  lemma WorkspaceSelection(ms: seq<Message>, maxRounds: nat) returns (from: nat, at: seq<nat>)
    ensures from <= |ms| && ms[from..] == Flatten(LastOf(Rounds(ms), maxRounds))
    ensures maxRounds > 0 ==> RoundCount(ms[from..]) == if |Rounds(ms)| <= maxRounds then |Rounds(ms)| else maxRounds
    ensures IsSelection(Compacted(ms, true, maxRounds), ms[from..], at)
  {
    hide Flatten, Rounds, KeepAnswers, ShortenAll, IsSelection, RoundCount;
    from := TailFrom(ms, maxRounds);
    at := KeptPositions(Flatten(LastOf(Rounds(ms), maxRounds)));
    if maxRounds > 0 {
      RecentRounds(ms, maxRounds);
    }
  }

  lemma TailFrom(ms: seq<Message>, n: nat) returns (from: nat)
    ensures from <= |ms| && ms[from..] == Flatten(LastOf(Rounds(ms), n))
  {
    hide Rounds, Flatten;
    RoundsCover(ms);
    var rs := Rounds(ms);
    if n == 0 || |rs| <= n {
      from := 0;
    } else {
      assert rs == AllButLast(rs, n) + LastOf(rs, n);
      FlattenAppend(AllButLast(rs, n), LastOf(rs, n));
      from := |Flatten(AllButLast(rs, n))|;
    }
  }

  lemma {:induction false} DeclaredBy(ms: seq<Message>, id: string)
    requires id in Declared(ms)
    ensures exists k :: 0 <= k < |ms| && FromAssistant(ms[k]) && id in Declares(ms[k])
    decreases |ms|
  {
    var n := |ms| - 1;
    if id in Declares(ms[n]) {
      assert FromAssistant(ms[n]);
    } else {
      DeclaredBy(ms[..n], id);
      var k :| 0 <= k < n && FromAssistant(ms[..n][k]) && id in Declares(ms[..n][k]);
      assert ms[k] == ms[..n][k];
    }
  }

  lemma ToolDeclaresNothing(m: Message)
    ensures FromTool(m) ==> Declares(m) == {}
  {
    assert |"tool"| != |"assistant"|;
  }

  lemma DeclaredSnoc(ms: seq<Message>, m: Message)
    ensures Declared(ms + [m]) == Declared(ms) + Declares(m)
  {
    assert (ms + [m])[..|ms + [m]| - 1] == ms;
  }

  lemma {:induction false} KeepAnswersDeclared(ms: seq<Message>)
    ensures Declared(KeepAnswers(ms)) == Declared(ms)
    decreases |ms|
  {
    if ms != [] {
      hide Declares, FromTool;
      var n := |ms| - 1;
      KeepAnswersDeclared(ms[..n]);
      ToolDeclaresNothing(ms[n]);
      DeclaredSnoc(KeepAnswers(ms[..n]), ms[n]);
      if Orphan(ms[n], Declared(ms[..n])) {
        assert KeepAnswers(ms) == KeepAnswers(ms[..n]) + [];
        assert KeepAnswers(ms[..n]) + [] == KeepAnswers(ms[..n]);
      }
    }
  }

  // A tool result that is kept has its call declared before it.
  lemma {:induction false} KeptAnswerIsPaired(ms: seq<Message>, j: nat)
    requires j < |KeepAnswers(ms)| && FromTool(KeepAnswers(ms)[j])
    ensures !Orphan(KeepAnswers(ms)[j], Declared(KeepAnswers(ms)[..j]))
    decreases |ms|
  {
    var n := |ms| - 1;
    var front := KeepAnswers(ms[..n]);
    var out := KeepAnswers(ms);
    if j < |front| {
      assert out[j] == front[j];
      KeptAnswerIsPaired(ms[..n], j);
      assert out[..j] == front[..j];
    } else {
      KeepAnswersDeclared(ms[..n]);
      assert out[..j] == front;
    }
  }

  // No tool result is left without the assistant message that called for it.
  lemma NoOrphanIsLeft(ms: seq<Message>, maxRounds: nat, j: nat)
    requires j < |Compacted(ms, true, maxRounds)|
    requires FromTool(Compacted(ms, true, maxRounds)[j])
    ensures var out := Compacted(ms, true, maxRounds);
            out[j].callId.Some?
            && exists k :: 0 <= k < j && FromAssistant(out[k]) && out[j].callId.value in Declares(out[k])
  {
    hide KeepAnswers, Declared, Declares;
    var tail := ShortenAll(Flatten(LastOf(Rounds(ms), maxRounds)));
    var out := KeepAnswers(tail);
    assert out == Compacted(ms, true, maxRounds);
    KeptAnswerIsPaired(tail, j);
    DeclaredBy(out[..j], out[j].callId.value);
    var k :| 0 <= k < j && FromAssistant(out[..j][k]) && out[j].callId.value in Declares(out[..j][k]);
    assert out[k] == out[..j][k];
  }

  // ----- compacting again -----

  lemma {:induction false} KeepAnswersSame(ms: seq<Message>)
    ensures forall m :: m in KeepAnswers(ms) ==> m in ms
    ensures Assistants(KeepAnswers(ms)) == Assistants(ms)
    ensures ms != [] && FromAssistant(ms[|ms| - 1]) ==> KeepAnswers(ms) != [] && KeepAnswers(ms)[|KeepAnswers(ms)| - 1] == ms[|ms| - 1]
    ensures KeepAnswers(ms) != [] ==> ms != []
    decreases |ms|
  {
    if ms != [] {
      hide Orphan, Declared;
      var n := |ms| - 1;
      KeepAnswersSame(ms[..n]);
      AssistantIsNoOrphan(ms[n], Declared(ms[..n]));
      var front := KeepAnswers(ms[..n]);
      assert (front + [ms[n]])[..|front|] == front;
      assert front + [] == front;
    }
  }

  lemma AssistantIsNoOrphan(m: Message, ids: set<string>)
    ensures FromAssistant(m) ==> !Orphan(m, ids)
  {
    assert |"tool"| != |"assistant"|;
  }

  lemma {:induction false} ShortenSame(ms: seq<Message>)
    ensures Assistants(ShortenAll(ms)) == Assistants(ms)
    decreases |ms|
  {
    if ms != [] {
      var n := |ms| - 1;
      ShortenSame(ms[..n]);
      var front := ShortenAll(ms[..n]);
      assert (front + [ShortenOne(ms[n])])[..|front|] == front;
      ShortenDeclares(ms[n]);
      hide ShortenOne, FromAssistant;
    }
  }

  lemma ShortenOneStable(m: Message)
    ensures ShortenOne(ShortenOne(m)) == ShortenOne(m)
  {
    hide Shorten;
    ShortenIsStable(Text(m));
  }

  // Compacting has no more rounds than what it compacts.
  lemma NoMoreRounds(ms: seq<Message>)
    ensures RoundCount(KeepAnswers(ShortenAll(ms))) <= RoundCount(ms)
  {
    hide KeepAnswers, Assistants, ShortenAll, ShortenOne, FromAssistant;
    var short := ShortenAll(ms);
    ShortenSame(ms);
    ShortenAt(ms);
    KeepAnswersSame(short);
    if ms != [] {
      ShortenDeclares(ms[|ms| - 1]);
    }
  }

  lemma {:induction false} KeepAnswersStable(ms: seq<Message>)
    ensures KeepAnswers(KeepAnswers(ms)) == KeepAnswers(ms)
    decreases |ms|
  {
    if ms != [] {
      hide Orphan, Declared;
      var n := |ms| - 1;
      var front := KeepAnswers(ms[..n]);
      KeepAnswersStable(ms[..n]);
      KeepAnswersDeclared(ms[..n]);
      assert (front + [ms[n]])[..|front|] == front;
      assert front + [] == front;
    }
  }

  lemma {:induction false} ShortenSettled(ms: seq<Message>)
    requires forall m :: m in ms ==> ShortenOne(m) == m
    ensures ShortenAll(ms) == ms
    decreases |ms|
  {
    hide ShortenOne;
    if ms != [] {
      var n := |ms| - 1;
      ShortenSettled(ms[..n]);
      assert ms[n] in ms;
      assert ms == ms[..n] + [ms[n]];
    }
  }

  // Compacting a compacted conversation changes nothing, so it may be done
  // before every call.
  lemma CompactingTwice(ms: seq<Message>, maxRounds: nat)
    ensures var out := Compacted(ms, true, maxRounds);
            Compacted(out, true, maxRounds) == out
  {
    hide Flatten, Rounds, KeepAnswers, ShortenAll, ShortenOne, RoundCount;
    var tail := Flatten(LastOf(Rounds(ms), maxRounds));
    var short := ShortenAll(tail);
    var out := KeepAnswers(short);
    NoMoreRounds(tail);
    if maxRounds > 0 {
      RecentRounds(ms, maxRounds);
    }
    RoundsCover(out);
    assert LastOf(Rounds(out), maxRounds) == Rounds(out);
    assert Flatten(LastOf(Rounds(out), maxRounds)) == out;
    KeepAnswersStable(short);
    OutIsSettled(tail);
    ShortenSettled(out);
  }

  lemma OutIsSettled(ms: seq<Message>)
    ensures forall m :: m in KeepAnswers(ShortenAll(ms)) ==> ShortenOne(m) == m
  {
    hide KeepAnswers, ShortenAll, ShortenOne;
    var short := ShortenAll(ms);
    ShortenAt(ms);
    KeepAnswersSame(short);
    forall m | m in KeepAnswers(short)
      ensures ShortenOne(m) == m
    {
      var i :| 0 <= i < |short| && short[i] == m;
      ShortenOneStable(ms[i]);
    }
  }

  // ----- the last rounds and the last messages -----

  lemma RoundCountSplit(ms: seq<Message>, p: nat)
    requires p < |ms|
    ensures RoundCount(ms) == Assistants(ms[..p]) + RoundCount(ms[p..])
    ensures p > 0 && FromAssistant(ms[p - 1]) ==> Assistants(ms[..p]) >= 1
  {
    assert ms == ms[..p] + ms[p..];
    AssistantsAppend(ms[..p], ms[p..]);
    if p > 0 {
      assert ms[..p][p - 1] == ms[p - 1];
    }
  }

  // The tail that starts at p starts just after a round and has n rounds.
  predicate StartsLast(ms: seq<Message>, p: nat, n: nat)
    requires p <= |ms|
  {
    if p == 0 then RoundCount(ms) <= n else FromAssistant(ms[p - 1]) && RoundCount(ms[p..]) == n
  }

  lemma StartsLastOnce(ms: seq<Message>, p: nat, q: nat, n: nat)
    requires p < q <= |ms| && n > 0 && StartsLast(ms, p, n)
    ensures !StartsLast(ms, q, n)
  {
    hide Assistants, FromAssistant;
    if q == |ms| {
      assert ms[q..] == [];
      assert RoundCount([]) == Assistants([]) == 0 by { NoAssistants([]); }
    } else {
      RoundCountSplit(ms[p..], q - p);
      assert ms[p..][q - p..] == ms[q..];
      assert ms[p..][q - p - 1] == ms[q - 1];
      assert ms[0..] == ms;
    }
  }

  // Which tail the last n rounds are: the one tail that starts after a round and
  // has n rounds, or the whole list when it has no more than n.
  lemma LastRoundsAre(ms: seq<Message>, p: nat, n: nat)
    requires p <= |ms| && n > 0
    ensures ms[p..] == Flatten(LastOf(Rounds(ms), n)) <==> StartsLast(ms, p, n)
  {
    hide Flatten, Rounds, StartsLast;
    var q := TailFrom(ms, n);
    LastStart(ms, q, n);
    if p < q {
      StartsLastTwice(ms, p, q, n);
    } else if q < p {
      StartsLastTwice(ms, q, p, n);
    }
  }

  lemma StartsLastTwice(ms: seq<Message>, p: nat, q: nat, n: nat)
    requires p < q <= |ms| && n > 0
    ensures !(StartsLast(ms, p, n) && StartsLast(ms, q, n))
  {
    if StartsLast(ms, p, n) {
      StartsLastOnce(ms, p, q, n);
    }
  }

  lemma LastStart(ms: seq<Message>, q: nat, n: nat)
    requires q <= |ms| && n > 0 && ms[q..] == Flatten(LastOf(Rounds(ms), n))
    ensures StartsLast(ms, q, n)
  {
    hide Flatten, Rounds, RoundCount, IsRound;
    RoundsCover(ms);
    RecentRounds(ms, n);
    var rs := Rounds(ms);
    if |rs| <= n {
      assert |ms[q..]| == |ms|;
    } else {
      var older := rs[..|rs| - n];
      assert rs == older + LastOf(rs, n);
      FlattenAppend(older, LastOf(rs, n));
      assert ms == Flatten(older) + ms[q..];
      OnePerRound(older);
      assert ms[q - 1] == Flatten(older)[q - 1];
    }
  }

  // Without a workspace the code keeps the last 2 * maxRounds messages. They
  // are the last maxRounds rounds only under this condition on where the tail
  // starts and how many rounds it has.
  lemma LastMessagesAreRounds(ms: seq<Message>, maxRounds: nat)
    requires maxRounds > 0
    ensures Compacted(ms, false, maxRounds) == Flatten(LastOf(Rounds(ms), maxRounds))
            <==> StartsLast(ms, if |ms| <= maxRounds * 2 then 0 else |ms| - maxRounds * 2, maxRounds)
  {
    hide Flatten, Rounds, StartsLast;
    LastRoundsAre(ms, if |ms| <= maxRounds * 2 then 0 else |ms| - maxRounds * 2, maxRounds);
    assert ms[0..] == ms;
  }

  ghost predicate Alternating(ms: seq<Message>) {
    |ms| % 2 == 0 && forall i :: 0 <= i < |ms| ==> (FromAssistant(ms[i]) <==> i % 2 == 1)
  }

  lemma {:induction false} AlternatingCount(ms: seq<Message>)
    requires Alternating(ms)
    ensures RoundCount(ms) == |ms| / 2
    decreases |ms|
  {
    hide FromAssistant;
    if ms != [] {
      var n := |ms| - 2;
      AlternatingCount(ms[..n]);
      assert ms[..n + 1][..n] == ms[..n];
      assert Assistants(ms) == Assistants(ms[..n + 1]) + 1;
      assert !FromAssistant(ms[n]);
      assert Assistants(ms[..n + 1]) == Assistants(ms[..n]);
      assert n > 0 ==> FromAssistant(ms[..n][n - 1]);
    }
  }

  lemma AlternatingTail(ms: seq<Message>, p: nat)
    requires Alternating(ms) && p <= |ms| && p % 2 == 0
    ensures Alternating(ms[p..]) && (p > 0 ==> FromAssistant(ms[p - 1]))
  {
    hide FromAssistant;
    assert forall i :: 0 <= i < |ms[p..]| ==> ms[p..][i] == ms[p + i];
  }

  // A conversation in which every user message has its answer is the usual case
  // in which they are.
  lemma AlternatingKeepsRounds(ms: seq<Message>, maxRounds: nat)
    requires maxRounds > 0 && Alternating(ms)
    ensures Compacted(ms, false, maxRounds) == Flatten(LastOf(Rounds(ms), maxRounds))
  {
    hide FromAssistant, RoundCount, Flatten, Rounds, Compacted;
    var p := if |ms| <= maxRounds * 2 then 0 else |ms| - maxRounds * 2;
    LastMessagesAreRounds(ms, maxRounds);
    AlternatingTail(ms, p);
    AlternatingCount(ms[p..]);
    assert ms[0..] == ms;
  }

  // With several tool results in a round they need not be, and then a result
  // can be kept whose call is cut off.
  lemma ToolCallsBreakTheTail(one: string, two: string)
    ensures var ms := [Message("user", Some("do it"), None, None, ""),
                       Message("assistant", Some(""), Some([one, two]), None, ""),
                       Message("tool", Some("first"), None, Some(one), ""),
                       Message("tool", Some("second"), None, Some(two), ""),
                       Message("assistant", Some("finished"), None, None, "")];
            && Compacted(ms, false, 1) == ms[3..]
            && Compacted(ms, false, 1) != Flatten(LastOf(Rounds(ms), 1))
            && Orphan(Compacted(ms, false, 1)[0], Declared(Compacted(ms, false, 1)[..0]))
  {
    hide Flatten, Rounds, RoundCount;
    var ms := [Message("user", Some("do it"), None, None, ""),
               Message("assistant", Some(""), Some([one, two]), None, ""),
               Message("tool", Some("first"), None, Some(one), ""),
               Message("tool", Some("second"), None, Some(two), ""),
               Message("assistant", Some("finished"), None, None, "")];
    LastMessagesAreRounds(ms, 1);
    assert |"tool"| != |"assistant"|;
    assert !FromAssistant(ms[2]);
    assert Declared([]) == {};
    assert Compacted(ms, false, 1)[..0] == [];
    assert Compacted(ms, false, 1)[0] == ms[3];
  }

  // ----- tails without orphans -----

  // Every tool result stands in a block of tool results right after the
  // assistant message that declares its call, as tool calls are answered.
  ghost predicate WellPaired(ms: seq<Message>) {
    forall i :: 0 <= i < |ms| && FromTool(ms[i]) ==> exists k :: 0 <= k < i && AnswersIn(ms, k, i)
  }

  ghost predicate AnswersIn(ms: seq<Message>, k: nat, i: nat)
    requires k < i < |ms|
  {
    && FromAssistant(ms[k]) && ms[i].callId.Some? && ms[i].callId.value in Declares(ms[k])
    && forall j :: k < j < i ==> FromTool(ms[j])
  }

  ghost predicate NoOrphans(ms: seq<Message>) {
    forall j :: 0 <= j < |ms| ==> !Orphan(ms[j], Declared(ms[..j]))
  }

  lemma {:induction false} DeclaredHas(ms: seq<Message>, k: nat, id: string)
    requires k < |ms| && id in Declares(ms[k])
    ensures id in Declared(ms)
    decreases |ms|
  {
    hide Declares;
    if k < |ms| - 1 {
      DeclaredHas(ms[..|ms| - 1], k, id);
    }
  }

  // A tail of a well-paired conversation has no orphan exactly when it does not
  // start with a tool result.
  lemma TailHasNoOrphan(ms: seq<Message>, p: nat)
    requires WellPaired(ms) && p <= |ms|
    ensures NoOrphans(ms[p..]) <==> p == |ms| || !FromTool(ms[p])
  {
    hide Declares, Declared, FromTool, Orphan, AnswersIn;
    var tail := ms[p..];
    if p < |ms| && FromTool(ms[p]) {
      assert tail[..0] == [] && tail[0] == ms[p];
      OrphanAtTheStart(ms[p]);
    } else {
      forall j | 0 <= j < |tail|
        ensures !Orphan(tail[j], Declared(tail[..j]))
      {
        assert tail[j] == ms[p + j];
        NoOrphanUnlessTool(tail[j], Declared(tail[..j]));
        if FromTool(ms[p + j]) {
          var k :| 0 <= k < p + j && AnswersIn(ms, k, p + j);
          AnsweredInTail(ms, p, k, j);
        }
      }
    }
  }

  lemma AnsweredInTail(ms: seq<Message>, p: nat, k: nat, j: nat)
    requires k < p + j < |ms| && AnswersIn(ms, k, p + j) && !FromTool(ms[p])
    requires FromTool(ms[p + j])
    ensures !Orphan(ms[p + j], Declared(ms[p..][..j]))
  {
    hide Declares, Declared, FromTool;
    assert p <= k;
    var front := ms[p..][..j];
    assert front[k - p] == ms[k];
    DeclaredHas(front, k - p, ms[p + j].callId.value);
  }

  lemma OrphanAtTheStart(m: Message)
    requires FromTool(m)
    ensures Orphan(m, Declared([]))
  {
  }

  lemma NoOrphanUnlessTool(m: Message, declared: set<string>)
    ensures Orphan(m, declared) ==> FromTool(m)
  {
  }

  // Where the last 2 * maxRounds messages start; for 0 they are all.
  function TailStart(ms: seq<Message>, maxRounds: nat): (p: nat)
    ensures p <= |ms|
  {
    if maxRounds == 0 || |ms| <= maxRounds * 2 then 0 else |ms| - maxRounds * 2
  }

  // Without a workspace a well-paired conversation keeps every kept tool result
  // with its call exactly when the message at which the cut falls is not a tool
  // result.
  lemma LastMessagesAreOrphanFree(ms: seq<Message>, maxRounds: nat)
    requires WellPaired(ms)
    ensures var p := TailStart(ms, maxRounds);
            NoOrphans(Compacted(ms, false, maxRounds)) <==> p == |ms| || !FromTool(ms[p])
  {
    hide NoOrphans, FromTool, WellPaired;
    var p := TailStart(ms, maxRounds);
    assert LastOf(ms, maxRounds * 2) == ms[p..];
    TailHasNoOrphan(ms, p);
  }

  // ----- chat mode -----

  function Chars(ms: seq<Message>): nat {
    if ms == [] then 0 else |Text(ms[0])| + Chars(ms[1..])
  }

  // Whether the messages from p on may be sent: they fit, or there is just one.
  predicate Fits(ms: seq<Message>, p: nat)
    requires p <= |ms|
  {
    Chars(ms[p..]) <= MAX_HISTORY_CHARS || p + 1 == |ms|
  }

  // Keeps the longest tail that may be sent.
  method CompactChat(messages: seq<Message>) returns (truncated: seq<Message>)
    ensures exists p: nat :: p <= |messages| && IsLongestTail(messages, p) && truncated == messages[p..]
  {
    hide Chars, Text, IsLongestTail;
    truncated := [];
    var totalChars := 0;
    var i := |messages|;
    CharsOfNone(messages);
    while i > 0
      invariant 0 <= i <= |messages| && truncated == messages[i..] && totalChars == Chars(messages[i..])
      invariant Fits(messages, i)
    {
      var msg := messages[i - 1];
      CharsStep(messages, i);
      var msgLen := |Text(msg)|;
      if totalChars + msgLen > MAX_HISTORY_CHARS && truncated != [] {
        break;
      }
      truncated := [msg] + truncated;
      totalChars := totalChars + msgLen;
      i := i - 1;
    }
    TailIsLongest(messages, i);
  }

  // The cut of the chat mode: it falls at one place only, and keeps every kept
  // tool result of a well-paired conversation with its call exactly when the
  // message there is not a tool result.
  lemma ChatTailIsOrphanFree(ms: seq<Message>, p: nat)
    requires WellPaired(ms) && p <= |ms| && IsLongestTail(ms, p)
    ensures NoOrphans(ms[p..]) <==> p == |ms| || !FromTool(ms[p])
    ensures forall q: nat :: q <= |ms| && IsLongestTail(ms, q) ==> q == p
  {
    hide NoOrphans, FromTool, WellPaired, Fits;
    TailHasNoOrphan(ms, p);
  }

  // A call with a long text is cut off from its result.
  lemma LongCallIsCutOff(text: string, id: string)
    requires |text| > MAX_HISTORY_CHARS
    ensures var ms := [Message("assistant", Some(text), Some([id]), None, ""), Message("tool", Some("done"), None, Some(id), "")];
            WellPaired(ms) && IsLongestTail(ms, 1) && !NoOrphans(ms[1..])
  {
    var ms := [Message("assistant", Some(text), Some([id]), None, ""), Message("tool", Some("done"), None, Some(id), "")];
    CharsStep(ms, 1);
    CharsStep(ms, 2);
    CharsOfNone(ms);
    hide Chars;
    assert |"tool"| != |"assistant"|;
    assert WellPaired(ms) by {
      assert ms[0].calls.value[0] == id;
      assert AnswersIn(ms, 0, 1);
    }
    TailHasNoOrphan(ms, 1);
    assert Fits(ms, 1) && !Fits(ms, 0) by {
      assert ms[0..] == ms;
    }
  }

  lemma CharsOfNone(ms: seq<Message>)
    ensures ms[|ms|..] == [] && Chars(ms[|ms|..]) == 0
  {
  }

  lemma CharsStep(ms: seq<Message>, i: nat)
    requires 0 < i <= |ms|
    ensures ms[i - 1..] == [ms[i - 1]] + ms[i..]
    ensures Chars(ms[i - 1..]) == |Text(ms[i - 1])| + Chars(ms[i..])
  {
    assert ms[i - 1..][1..] == ms[i..];
  }

  lemma TailIsLongest(ms: seq<Message>, i: nat)
    requires i <= |ms| && Fits(ms, i)
    requires i > 0 ==> i < |ms| && Chars(ms[i - 1..]) > MAX_HISTORY_CHARS
    ensures IsLongestTail(ms, i)
  {
    hide Chars;
    if i > 0 {
      CharsGrow(ms, i - 1);
    }
  }

  ghost predicate IsLongestTail(ms: seq<Message>, p: nat)
    requires p <= |ms|
  {
    Fits(ms, p) && forall q: nat :: q < p ==> !Fits(ms, q)
  }

  lemma {:induction false} CharsGrow(ms: seq<Message>, p: nat)
    requires p <= |ms|
    ensures forall q: nat :: q <= p ==> Chars(ms[p..]) <= Chars(ms[q..])
    decreases p
  {
    if p > 0 {
      CharsGrow(ms, p - 1);
      CharsStep(ms, p);
      hide Chars;
    }
  }

  // ----- with a summary -----

  datatype Mode = Chat | Coding | CodingWithWorkspace | Other

  datatype Compaction = Compaction(result: seq<Message>, summary: Option<string>)

  function SummaryMessage(summary: string): Message {
    Message("user", Some(SUMMARY_MARKER + "\n" + summary), None, None, "")
  }

  // The body of both entry points: what a mode makes of the messages.
  method CompactBy(messages: seq<Message>, mode: Mode) returns (out: seq<Message>)
    ensures mode.Chat? ==> exists p: nat :: p <= |messages| && IsLongestTail(messages, p) && out == messages[p..]
    ensures mode.Coding? ==> out == Compacted(messages, false, MAX_ROUNDS)
    ensures mode.CodingWithWorkspace? ==> out == Compacted(messages, true, MAX_ROUNDS)
    ensures mode.Other? ==> out == messages
  {
    hide Compacted, IsLongestTail;
    match mode
    case Chat => out := CompactChat(messages);
    case Coding => out := CompactCoding(messages, false, MAX_ROUNDS);
    case CodingWithWorkspace => out := CompactCoding(messages, true, MAX_ROUNDS);
    case Other => out := messages;
  }

  function CountRounds(ms: seq<Message>): nat {
    Assistants(ms)
  }

  // `written` is the summary the model writes for the older part, None when there
  // is no model or the call fails.
  method CompactWithSummary(messages: seq<Message>, mode: Mode, existing: Option<string>, written: Option<string>)
      returns (c: Compaction)
    ensures var older, recent := OlderPart(messages, KEEP_RECENT_ROUNDS), RecentPart(messages, KEEP_RECENT_ROUNDS);
            if CountRounds(messages) > COMPACT_TRIGGER_ROUNDS && written.Some? && written.value != "" then
              && c.summary == written
              && older + recent == messages && older != []
              && c.result != [] && c.result[0] == SummaryMessage(written.value)
              && match mode
                 case CodingWithWorkspace => c.result[1..] == KeepAnswers(ShortenAll(recent))
                 case Coding => c.result[1..] == LastOf(recent, MAX_ROUNDS * 2)
                 case _ => exists p: nat :: p <= |recent| && IsLongestTail(recent, p) && c.result[1..] == recent[p..]
            else
              c.summary == existing && IsCompact(messages, mode, existing, c.result)
  {
    hide Compacted, IsLongestTail, KeepAnswers, ShortenAll, OlderPart, RecentPart, Assistants;
    var rounds := CountRounds(messages);
    if rounds > COMPACT_TRIGGER_ROUNDS && written.Some? {
      var older, recent := SplitByRounds(messages, KEEP_RECENT_ROUNDS);
      OlderIsThere(messages, KEEP_RECENT_ROUNDS);
      if older != [] && written.value != "" {
        var kept := CompactRecent(recent, mode);
        RecentIsNotCut(messages);
        LastMessages(recent, MAX_ROUNDS);
        return Compaction([SummaryMessage(written.value)] + kept, written);
      }
    }
    var out := Compact(messages, mode, existing);
    c := Compaction(out, existing);
  }

  // After a summary every mode other than the coding ones is treated as chat.
  method CompactRecent(recent: seq<Message>, mode: Mode) returns (out: seq<Message>)
    ensures mode.CodingWithWorkspace? ==> out == Compacted(recent, true, MAX_ROUNDS)
    ensures mode.Coding? ==> out == Compacted(recent, false, MAX_ROUNDS)
    ensures mode.Chat? || mode.Other? ==> exists p: nat :: p <= |recent| && IsLongestTail(recent, p) && out == recent[p..]
  {
    hide Compacted, IsLongestTail;
    out := CompactBy(recent, if mode.Other? then Chat else mode);
  }

  method Compact(messages: seq<Message>, mode: Mode, existing: Option<string>) returns (result: seq<Message>)
    ensures IsCompact(messages, mode, existing, result)
  {
    hide Compacted, IsLongestTail;
    if messages == [] {
      return [];
    }
    var body := CompactBy(messages, mode);
    result := SummaryOf(existing) + body;
  }

  // The summary, if there is one, and what the mode makes of the messages.
  ghost predicate IsCompact(messages: seq<Message>, mode: Mode, existing: Option<string>, result: seq<Message>) {
    if messages == [] then result == []
    else
      match mode
      case CodingWithWorkspace => result == SummaryOf(existing) + Compacted(messages, true, MAX_ROUNDS)
      case Coding => result == SummaryOf(existing) + Compacted(messages, false, MAX_ROUNDS)
      case Chat => exists p: nat :: p <= |messages| && IsLongestTail(messages, p) && result == SummaryOf(existing) + messages[p..]
      case Other => result == SummaryOf(existing) + messages
  }

  function SummaryOf(existing: Option<string>): seq<Message> {
    if existing.Some? && existing.value != "" then [SummaryMessage(existing.value)] else []
  }

  lemma LastMessages(ms: seq<Message>, maxRounds: nat)
    ensures Compacted(ms, false, maxRounds) == LastOf(ms, maxRounds * 2)
  {
  }

  // Above the trigger there is always an older part to summarise.
  lemma OlderIsThere(ms: seq<Message>, keep: nat)
    ensures Assistants(ms) > keep > 0 ==> OlderPart(ms, keep) != []
  {
    if Assistants(ms) > keep > 0 {
      hide Rounds, Assistants, Flatten, Closed, Open;
      RoundsCover(ms);
      RecentRounds(ms, keep);
      SplitCovers(ms, keep);
      assert |Rounds(ms)| > keep;
      assert OlderPart(ms, keep) == [] ==> RecentPart(ms, keep) == ms;
    }
  }

  // The recent part is not cut a second time: with a workspace every message is
  // either summarised or kept, but for tool results whose call was summarised.
  lemma RecentIsNotCut(ms: seq<Message>)
    ensures var recent := RecentPart(ms, KEEP_RECENT_ROUNDS);
            Compacted(recent, true, MAX_ROUNDS) == KeepAnswers(ShortenAll(recent))
  {
    hide Rounds, Assistants, Flatten, KeepAnswers, ShortenAll;
    var recent := RecentPart(ms, KEEP_RECENT_ROUNDS);
    RoundsCover(ms);
    RecentRounds(ms, KEEP_RECENT_ROUNDS);
    RoundsCover(recent);
    assert |Rounds(recent)| <= KEEP_RECENT_ROUNDS;
    assert LastOf(Rounds(recent), MAX_ROUNDS) == Rounds(recent);
  }

  // ----- old tool results -----

  function Digit(n: nat): char
    requires n < 10
  {
    "0123456789"[n]
  }

  function Decimal(n: nat): string {
    if n < 10 then [Digit(n)] else Decimal(n / 10) + [Digit(n % 10)]
  }

  function Marker(size: nat): string {
    "\n... [已压缩，原始 " + Decimal(size) + " 字符]"
  }

  // A tool result cut to its first characters and a note of its size.
  function Squeeze(m: Message): Message {
    var content := Text(m);
    if |content| > MAX_OLD_RESULT_CHARS then m.(content := Some(content[..MAX_OLD_RESULT_CHARS] + Marker(|content|))) else m
  }

  function ToolCount(ms: seq<Message>): nat {
    if ms == [] then 0 else ToolCount(ms[..|ms| - 1]) + (if FromTool(ms[|ms| - 1]) then 1 else 0)
  }

  // The positions of the tool results, in order.
  function ToolIndices(ms: seq<Message>): seq<nat> {
    if ms == [] then []
    else ToolIndices(ms[..|ms| - 1]) + (if FromTool(ms[|ms| - 1]) then [|ms| - 1] else [])
  }

  // Whether at least `keep` tool results come after the i-th message.
  predicate IsOld(ms: seq<Message>, i: nat, keep: nat)
    requires i < |ms|
  {
    FromTool(ms[i]) && ToolCount(ms) - ToolCount(ms[..i + 1]) >= keep
  }

  // Squeezes all but the last keepRecent tool results, and nothing else. For
  // keepRecent = 0 it squeezes none, because `[:-0]` is empty.
  method CleanToolResults(messages: seq<Message>, keepRecent: nat) returns (result: seq<Message>)
    ensures |result| == |messages|
    ensures forall i :: 0 <= i < |messages| ==>
      result[i] == if keepRecent > 0 && IsOld(messages, i, keepRecent) then Squeeze(messages[i]) else messages[i]
  {
    hide Squeeze, IsOld, ToolIndices, ToolCount;
    var toolIndices := FindTools(messages);
    IndexCount(messages);
    if |toolIndices| <= keepRecent {
      NoneIsOld(messages, keepRecent);
      return messages;
    }
    var toCompress := AllButLast(toolIndices, keepRecent);
    result := [];
    for i := 0 to |messages|
      invariant |result| == i
      invariant forall k :: 0 <= k < i ==>
        result[k] == if keepRecent > 0 && IsOld(messages, k, keepRecent) then Squeeze(messages[k]) else messages[k]
    {
      OldOnes(messages, i, keepRecent);
      if i in toCompress {
        result := result + [Squeeze(messages[i])];
      } else {
        result := result + [messages[i]];
      }
    }
  }

  method FindTools(messages: seq<Message>) returns (at: seq<nat>)
    ensures at == ToolIndices(messages)
  {
    at := [];
    for k := 0 to |messages|
      invariant at == ToolIndices(messages[..k])
    {
      assert messages[..k + 1][..k] == messages[..k];
      if FromTool(messages[k]) {
        at := at + [k];
      }
    }
    assert messages[..|messages|] == messages;
  }

  lemma {:induction false} IndexOf(ms: seq<Message>, i: nat)
    requires i < |ms| && FromTool(ms[i])
    ensures i in ToolIndices(ms)
    decreases |ms|
  {
    hide FromTool;
    var n := |ms| - 1;
    var front := ToolIndices(ms[..n]);
    if i < n {
      IndexOf(ms[..n], i);
    } else {
      assert (front + [n])[|front|] == n;
    }
  }

  // The p-th tool result is the one with p tool results before it.
  lemma {:induction false} IndexIs(ms: seq<Message>, p: nat)
    requires p < |ToolIndices(ms)|
    ensures var i := ToolIndices(ms)[p]; i < |ms| && FromTool(ms[i]) && ToolCount(ms[..i + 1]) == p + 1
    decreases |ms|
  {
    hide FromTool;
    var n := |ms| - 1;
    var front := ToolIndices(ms[..n]);
    IndexCount(ms[..n]);
    assert ms[..n + 1] == ms;
    if p < |front| {
      IndexIs(ms[..n], p);
      assert ms[..n][..front[p] + 1] == ms[..front[p] + 1];
    }
  }

  lemma {:induction false} IndexCount(ms: seq<Message>)
    ensures |ToolIndices(ms)| == ToolCount(ms)
    decreases |ms|
  {
    if ms != [] {
      IndexCount(ms[..|ms| - 1]);
    }
  }

  lemma {:induction false} CountGrows(ms: seq<Message>, i: nat)
    requires i <= |ms|
    ensures ToolCount(ms[..i]) <= ToolCount(ms)
    decreases |ms|
  {
    if i < |ms| {
      CountGrows(ms[..|ms| - 1], i);
      assert ms[..|ms| - 1][..i] == ms[..i];
    } else {
      assert ms[..i] == ms;
    }
  }

  lemma NoneIsOld(ms: seq<Message>, keep: nat)
    requires ToolCount(ms) <= keep
    ensures forall i :: 0 <= i < |ms| && keep > 0 ==> !IsOld(ms, i, keep)
  {
    forall i | 0 <= i < |ms| && keep > 0
      ensures !IsOld(ms, i, keep)
    {
      assert ms[..i + 1][..i] == ms[..i];
    }
  }

  lemma OldOnes(ms: seq<Message>, i: nat, keep: nat)
    requires i < |ms| && |ToolIndices(ms)| > keep
    ensures i in AllButLast(ToolIndices(ms), keep) <==> keep > 0 && IsOld(ms, i, keep)
  {
    hide ToolIndices, ToolCount, FromTool;
    var at := ToolIndices(ms);
    IndexCount(ms);
    if keep > 0 {
      var older := AllButLast(at, keep);
      if i in older {
        var p :| 0 <= p < |older| && older[p] == i;
        assert at[p] == i;
        IndexIs(ms, p);
      }
      if IsOld(ms, i, keep) {
        IndexOf(ms, i);
        var p :| 0 <= p < |at| && at[p] == i;
        IndexIs(ms, p);
        assert older[p] == i;
      }
    }
  }

  // The documented promise, that only the last keepRecent results stay whole and
  // the others are short, holds exactly when keepRecent is not 0 or every tool
  // result is short to begin with.
  ghost predicate OldAreShort(ms: seq<Message>, out: seq<Message>, keep: nat)
    requires |out| == |ms|
  {
    forall i :: 0 <= i < |ms| && IsOld(ms, i, keep) ==> |Text(out[i])| <= MAX_OLD_RESULT_CHARS + |Marker(|Text(ms[i])|)|
  }

  lemma CleaningIsComplete(ms: seq<Message>, out: seq<Message>, keep: nat)
    requires |out| == |ms|
    requires forall i :: 0 <= i < |ms| ==> out[i] == if keep > 0 && IsOld(ms, i, keep) then Squeeze(ms[i]) else ms[i]
    ensures OldAreShort(ms, out, keep)
            <==> keep > 0 || forall m :: m in ms && FromTool(m) ==> |Text(m)| <= MAX_OLD_RESULT_CHARS + |Marker(|Text(m)|)|
  {
    hide ToolCount, Marker, FromTool;
    if keep > 0 {
      forall i | 0 <= i < |ms| && IsOld(ms, i, keep)
        ensures |Text(out[i])| <= MAX_OLD_RESULT_CHARS + |Marker(|Text(ms[i])|)|
      {
        assert out[i] == Squeeze(ms[i]);
      }
    } else {
      forall i | 0 <= i < |ms|
        ensures out[i] == ms[i] && IsOld(ms, i, 0) == FromTool(ms[i])
      {
        CountGrows(ms, i + 1);
      }
      if OldAreShort(ms, out, keep) {
        forall m | m in ms && FromTool(m)
          ensures |Text(m)| <= MAX_OLD_RESULT_CHARS + |Marker(|Text(m)|)|
        {
          var i :| 0 <= i < |ms| && ms[i] == m;
          assert IsOld(ms, i, 0);
        }
      }
    }
  }

  // Asked to keep none, it keeps all of them.
  lemma KeepingNoneKeepsAll(content: string)
    requires |content| > MAX_OLD_RESULT_CHARS + |Marker(|content|)|
    ensures var ms := [Message("tool", Some(content), None, Some("id"), "")];
            !OldAreShort(ms, ms, 0)
  {
    var ms := [Message("tool", Some(content), None, Some("id"), "")];
    assert ms[..1] == ms;
    assert IsOld(ms, 0, 0);
    assert Text(ms[0]) == content;
    hide Marker;
  }

  // ----- what the texts become -----

  // `a` is followed by the first fence of the text.
  ghost predicate CutsAtFence(s: string, a: string, rest: string) {
    s == a + FENCE + rest && forall k: nat :: k < |a| ==> !Occurs(s, FENCE, k)
  }

  // `r` is `s` with every block between two fences, taken from the left and
  // each as short as can be, replaced by the note; the text around stays.
  ghost predicate IsStripped(s: string, r: string)
    decreases |s|
  {
    if !HasBlock(s) then r == s
    else exists a, body, rest, r' :: IsStrippedBy(s, r, a, body, rest, r') && |rest| < |s| && IsStripped(rest, r')
  }

  ghost predicate IsStrippedBy(s: string, r: string, a: string, body: string, rest: string, r': string) {
    CutsAtFence(s, a, body + FENCE + rest) && CutsAtFence(body + FENCE + rest, body, rest) && r == a + OMITTED + r'
  }

  lemma FirstFence(s: string)
    requires Find(s, FENCE) != -1
    ensures var i := Find(s, FENCE); CutsAtFence(s, s[..i], s[i + 3..])
  {
    FindIsFirst(s, FENCE);
    var i := Find(s, FENCE);
    assert s[i..i + 3] == FENCE;
    assert s == s[..i] + s[i..i + 3] + s[i + 3..];
  }

  lemma TwoFences(s: string, i: nat, j: nat)
    requires Occurs(s, FENCE, i) && i + 3 <= |s| && Occurs(s[i + 3..], FENCE, j)
    ensures HasBlock(s)
  {
    OccursBack(s, i + 3, j);
  }

  lemma {:induction false} StripCodeSays(s: string)
    ensures IsStripped(s, StripCode(s))
    decreases |s|
  {
    hide HasBlock, Occurs, Find, CutsAtFence, IsStripped;
    FindIsFirst(s, FENCE);
    var i := Find(s, FENCE);
    if i == -1 {
      WithoutBlock(s);
    } else {
      var tail := s[i + 3..];
      FindIsFirst(tail, FENCE);
      var j := Find(tail, FENCE);
      FirstFence(s);
      if j == -1 {
        LoneFence(s, i, tail);
        WithoutBlock(s);
      } else {
        var rest := tail[j + 3..];
        FirstFence(tail);
        StripCodeSays(rest);
        TwoFences(s, i, j);
        FenceParts(tail, tail[..j], rest);
        WithBlock(s, s[..i], tail[..j], rest, StripCode(rest));
      }
    }
  }

  lemma FenceParts(s: string, a: string, rest: string)
    requires CutsAtFence(s, a, rest)
    ensures s == a + FENCE + rest
  {
  }

  lemma WithoutBlock(s: string)
    requires !HasBlock(s) || forall k: nat :: !Occurs(s, FENCE, k)
    ensures IsStripped(s, s)
  {
  }

  lemma WithBlock(s: string, a: string, body: string, rest: string, r': string)
    requires HasBlock(s) && IsStripped(rest, r')
    requires CutsAtFence(s, a, body + FENCE + rest) && CutsAtFence(body + FENCE + rest, body, rest)
    ensures IsStripped(s, a + OMITTED + r')
  {
    hide CutsAtFence, HasBlock;
    FenceParts(s, a, body + FENCE + rest);
    assert IsStrippedBy(s, a + OMITTED + r', a, body, rest, r');
  }

  // An assistant message keeps its role and its calls; its text loses its code
  // blocks and what is beyond the first 500 characters.
  lemma ShortenedSays(m: Message) returns (stripped: string)
    requires FromAssistant(m)
    ensures IsStripped(if m.content.Some? then m.content.value else "", stripped)
    ensures var r := ShortenOne(m);
            && r.role == "assistant" && r.calls == m.calls
            && r.content == Some(if |stripped| <= 500 then stripped else stripped[..500] + CUT)
  {
    hide StripCode, IsStripped;
    stripped := StripCode(Text(m));
    StripCodeSays(Text(m));
  }

  // An old tool result keeps everything but its text, and of that the first 200
  // characters when it is longer.
  lemma SqueezedSays(m: Message)
    ensures var r, text := Squeeze(m), if m.content.Some? then m.content.value else "";
            && r.(content := m.content) == m
            && (|text| <= 200 ==> r == m)
            && (|text| > 200 ==> r.content.Some? && text[..200] <= r.content.value)
  {
    hide Marker;
  }

  // ----- counting -----

  lemma {:induction false} CharsAppend(a: seq<Message>, b: seq<Message>)
    ensures Chars(a + b) == Chars(a) + Chars(b)
    decreases |a|
  {
    hide Text;
    if a == [] {
      assert a + b == b;
    } else {
      assert (a + b)[1..] == a[1..] + b && (a + b)[0] == a[0];
      CharsAppend(a[1..], b);
    }
  }

  lemma CharsOne(m: Message)
    ensures Chars([m]) == if m.content.Some? then |m.content.value| else 0
  {
    assert [m][1..] == [];
  }

  ghost function Places(ms: seq<Message>, role: string, from: nat): set<nat> {
    set i | from <= i < |ms| && ms[i].role == role
  }

  lemma PlacesStep(ms: seq<Message>, role: string, from: nat)
    requires ms != [] && from <= |ms| - 1
    ensures var n := |ms| - 1;
            && Places(ms, role, from) == Places(ms[..n], role, from) + (if ms[n].role == role then {n} else {})
            && n !in Places(ms[..n], role, from)
  {
    var n := |ms| - 1;
    assert forall i :: 0 <= i < n ==> ms[..n][i] == ms[i];
  }

  lemma {:induction false} AssistantsAre(ms: seq<Message>)
    ensures Assistants(ms) == |Places(ms, "assistant", 0)|
    decreases |ms|
  {
    if ms == [] {
      assert Places(ms, "assistant", 0) == {};
    } else {
      AssistantsAre(ms[..|ms| - 1]);
      PlacesStep(ms, "assistant", 0);
    }
  }

  lemma {:induction false} ToolsAfter(ms: seq<Message>, from: nat)
    requires from <= |ms|
    ensures ToolCount(ms) - ToolCount(ms[..from]) == |Places(ms, "tool", from)|
    decreases |ms|
  {
    if from == |ms| {
      assert ms[..from] == ms;
      assert Places(ms, "tool", from) == {};
    } else {
      var n := |ms| - 1;
      ToolsAfter(ms[..n], from);
      assert ms[..n][..from] == ms[..from];
      PlacesStep(ms, "tool", from);
    }
  }

  // A tool result is old when at least `keep` tool results come after it.
  lemma OldSays(ms: seq<Message>, i: nat, keep: nat)
    requires i < |ms|
    ensures IsOld(ms, i, keep) <==> ms[i].role == "tool" && |Places(ms, "tool", i + 1)| >= keep
  {
    ToolsAfter(ms, i + 1);
  }

  // ----- which calls are declared -----

  lemma {:induction false} DeclaredSays(ms: seq<Message>, id: string)
    ensures id in Declared(ms) <==>
            exists k :: 0 <= k < |ms| && ms[k].role == "assistant" && ms[k].calls.Some? && id in ms[k].calls.value
    decreases |ms|
  {
    if ms != [] {
      var n := |ms| - 1;
      DeclaredSays(ms[..n], id);
      DeclaresSays(ms[n], id);
      assert forall k :: 0 <= k < n ==> ms[..n][k] == ms[k];
      hide Declares, FromAssistant;
      if id in Declared(ms[..n]) {
        var k :| 0 <= k < n && ms[..n][k].role == "assistant" && ms[..n][k].calls.Some? && id in ms[..n][k].calls.value;
        assert ms[k].role == "assistant" && ms[k].calls.Some? && id in ms[k].calls.value;
      }
    }
  }

  lemma DeclaresSays(m: Message, id: string)
    ensures id in Declares(m) <==> m.role == "assistant" && m.calls.Some? && id in m.calls.value
  {
    if m.calls.Some? && id in m.calls.value {
      var i :| 0 <= i < |m.calls.value| && m.calls.value[i] == id;
    }
  }

  // A message survives unless it is a tool result whose call no assistant
  // message before it declares.
  lemma SurvivesSays(ms: seq<Message>, i: nat)
    requires i < |ms|
    ensures Survives(ms, i) <==>
            (ms[i].role == "tool" ==>
               ms[i].callId.Some? &&
               exists k :: 0 <= k < i && ms[k].role == "assistant" && ms[k].calls.Some? && ms[i].callId.value in ms[k].calls.value)
  {
    hide Declared;
    if ms[i].callId.Some? {
      DeclaredSays(ms[..i], ms[i].callId.value);
      assert forall k :: 0 <= k < i ==> ms[..i][k] == ms[k];
    }
  }

  // ----- the note of the size -----

  function DigitValue(c: char): nat {
    if '0' <= c <= '9' then (c as int - '0' as int) as nat else 0
  }

  function ValueOf(digits: string): nat {
    if digits == "" then 0 else ValueOf(digits[..|digits| - 1]) * 10 + DigitValue(digits[|digits| - 1])
  }

  lemma DigitReads(n: nat)
    requires n < 10
    ensures '0' <= Digit(n) <= '9' && DigitValue(Digit(n)) == n
  {
  }

  lemma {:induction false} DecimalReads(n: nat)
    ensures ValueOf(Decimal(n)) == n && Decimal(n) != ""
    ensures forall c :: c in Decimal(n) ==> '0' <= c <= '9'
    decreases n
  {
    hide Digit, DigitValue;
    DigitReads(n % 10);
    if n < 10 {
      assert [Digit(n)][..0] == [];
    } else {
      DecimalReads(n / 10);
      assert (Decimal(n / 10) + [Digit(n % 10)])[..|Decimal(n / 10)|] == Decimal(n / 10);
    }
  }

  // A cut tool result notes how long it was.
  lemma SqueezedNotes(m: Message) returns (digits: string)
    requires m.content.Some? && |m.content.value| > 200
    ensures ValueOf(digits) == |m.content.value|
    ensures Squeeze(m).content == Some(m.content.value[..200] + ("\n... [已压缩，原始 " + digits + " 字符]"))
  {
    hide Decimal, ValueOf;
    digits := Decimal(|m.content.value|);
    DecimalReads(|m.content.value|);
  }

  lemma RoundsAreCounted(ms: seq<Message>)
    ensures CountRounds(ms) == |Places(ms, "assistant", 0)|
  {
    AssistantsAre(ms);
  }

  // ----- the limit of the chat mode, and the summary in front -----

  // The tail has at most 30000 characters or is the last message alone, and
  // every longer one is longer than that.
  lemma ChatTailSays(ms: seq<Message>, p: nat)
    requires p <= |ms| && IsLongestTail(ms, p)
    ensures Chars(ms[p..]) <= 30000 || |ms[p..]| == 1
    ensures forall q: nat :: q < p ==> Chars(ms[q..]) > 30000 && |ms[q..]| > 1
  {
    hide Chars;
    forall q: nat | q < p
      ensures Chars(ms[q..]) > 30000 && |ms[q..]| > 1
    {
      assert !Fits(ms, q);
    }
  }

  // A summary from before goes first, under its mark; without one the messages
  // come alone.
  lemma SummaryGoesFirst(messages: seq<Message>, mode: Mode, existing: Option<string>, result: seq<Message>)
    requires IsCompact(messages, mode, existing, result) && messages != []
    ensures var given := existing.Some? && existing.value != "";
            && (given ==> result != [] && result[0] == Message("user", Some("[对话摘要]\n" + existing.value), None, None, ""))
            && (mode.Other? ==> (if given then result[1..] else result) == messages)
  {
    hide Compacted, IsLongestTail;
    assert SUMMARY_MARKER + "\n" == "[对话摘要]\n";
  }
}
