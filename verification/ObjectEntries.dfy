// The two hand-written scanners over JavaScript object source and the joiner
// (backend/form_component_editor_impl.py:803-811, 975-1046, 1066-1119).
module ObjectEntries {
  import opened PyText

  // ----- the lexer both scanners share -----

  datatype Mode = Code | LineComment | BlockComment | InString(quote: char, escaped: bool)

  // The character after the last one is the empty string in the program; it is
  // compared with '/' and '*' only, so any other character does.
  const END: char := '\n'

  function CharAt(s: string, i: nat): char {
    if i < |s| then s[i] else END
  }

  function NextMode(m: Mode, c: char, next: char): Mode {
    match m
    case LineComment => if c == '\n' then Code else LineComment
    case BlockComment => if c == '*' && next == '/' then Code else BlockComment
    case InString(q, escaped) =>
      if escaped then InString(q, false)
      else if c == '\\' then InString(q, true)
      else if c == q then Code
      else m
    case Code =>
      if c == '/' && next == '/' then LineComment
      else if c == '/' && next == '*' then BlockComment
      else if c == '\'' || c == '"' || c == '`' then InString(c, false)
      else Code
  }

  // The character is read as code: it opens no comment and no string.
  predicate IsCode(m: Mode, c: char, next: char) {
    m.Code? && NextMode(m, c, next).Code?
  }

  // ----- the splitter's state -----

  datatype Scan = Scan(mode: Mode, brace: int, bracket: int, paren: int)

  const START := Scan(Code, 0, 0, 0)

  function Step(sc: Scan, c: char, next: char): Scan {
    var mode := NextMode(sc.mode, c, next);
    if !IsCode(sc.mode, c, next) then sc.(mode := mode)
    else if c == '{' then sc.(brace := sc.brace + 1)
    else if c == '}' then sc.(brace := sc.brace - 1)
    else if c == '[' then sc.(bracket := sc.bracket + 1)
    else if c == ']' then sc.(bracket := sc.bracket - 1)
    else if c == '(' then sc.(paren := sc.paren + 1)
    else if c == ')' then sc.(paren := sc.paren - 1)
    else sc
  }

  // The state in which `s[i]` is read.
  function At(s: string, i: nat): Scan
    requires i <= |s|
  {
    if i == 0 then START else Step(At(s, i - 1), s[i - 1], CharAt(s, i))
  }

  predicate IsTopComma(s: string, i: nat)
    requires i < |s|
  {
    s[i] == ',' && At(s, i) == START
  }

  // ----- splitting -----

  function FirstCommaFrom(s: string, from: nat): (p: int)
    requires from <= |s|
    ensures p == -1 ==> forall i :: from <= i < |s| ==> !IsTopComma(s, i)
    ensures p != -1 ==> from <= p < |s| && IsTopComma(s, p) && forall i :: from <= i < p ==> !IsTopComma(s, i)
    decreases |s| - from
  {
    if from == |s| then -1 else if IsTopComma(s, from) then from else FirstCommaFrom(s, from + 1)
  }

  function FirstComma(s: string): (p: int)
    ensures p == -1 ==> forall i :: 0 <= i < |s| ==> !IsTopComma(s, i)
    ensures p != -1 ==> 0 <= p < |s| && IsTopComma(s, p) && forall i :: 0 <= i < p ==> !IsTopComma(s, i)
  {
    FirstCommaFrom(s, 0)
  }

  // Entries that are empty after trimming are dropped.
  function Keep(piece: string): seq<string> {
    if Strip(piece) == "" then [] else [Strip(piece)]
  }

  function Entries(s: string): seq<string>
    decreases |s|
  {
    var p := FirstComma(s);
    if p == -1 then Keep(s) else Keep(s[..p]) + Entries(s[p + 1..])
  }

  lemma {:induction false} ScanShift(s: string, k: nat, j: nat)
    requires k + j <= |s| && At(s, k) == START
    ensures At(s[k..], j) == At(s, k + j)
    decreases j
  {
    if j > 0 {
      ScanShift(s, k, j - 1);
    }
  }

  lemma FirstCommaUnique(s: string, p: nat)
    requires p < |s| && IsTopComma(s, p) && forall i :: 0 <= i < p ==> !IsTopComma(s, i)
    ensures FirstComma(s) == p
  {
  }

  lemma EntriesStep(s: string, p: nat)
    requires FirstComma(s) == p
    ensures Entries(s) == Keep(s[..p]) + Entries(s[p + 1..])
  {
  }

  lemma CommaIsNeutral(sc: Scan, c: char, next: char)
    requires c == ','
    ensures sc == START ==> Step(sc, c, next) == sc
  {
  }

  // One turn of the splitter's loop, against the recursive description.
  lemma EntryCut(s: string, start: nat, i: nat)
    requires start <= i < |s| && At(s, start) == START && IsTopComma(s, i)
    requires forall j :: start <= j < i ==> !IsTopComma(s, j)
    ensures At(s, i + 1) == START
    ensures Entries(s[start..]) == Keep(s[start..i]) + Entries(s[i + 1..])
  {
    hide Step, Keep, Entries;
    var t := s[start..];
    forall j | 0 <= j <= i - start
      ensures IsTopComma(t, j) <==> IsTopComma(s, start + j)
    {
      ScanShift(s, start, j);
    }
    FirstCommaUnique(t, i - start);
    EntriesStep(t, i - start);
    assert t[..i - start] == s[start..i];
    assert t[i - start + 1..] == s[i + 1..];
    CommaIsNeutral(At(s, i), s[i], CharAt(s, i + 1));
  }

  ghost predicate NoTopComma(e: string) {
    forall i :: 0 <= i < |e| ==> !IsTopComma(e, i)
  }

  lemma NoCommaOneEntry(e: string)
    requires NoTopComma(e)
    ensures Entries(e) == Keep(e)
  {
    hide Step, Keep;
    assert FirstComma(e) == -1;
  }

  lemma EntryTail(s: string, start: nat)
    requires start <= |s| && At(s, start) == START
    requires forall j :: start <= j < |s| ==> !IsTopComma(s, j)
    ensures Entries(s[start..]) == Keep(s[start..])
  {
    hide Step, Keep, Entries;
    var t := s[start..];
    forall j | 0 <= j < |t|
      ensures !IsTopComma(t, j)
    {
      ScanShift(s, start, j);
      assert !IsTopComma(s, start + j);
    }
    NoCommaOneEntry(t);
  }

  method SplitTopLevelEntries(content: string) returns (entries: seq<string>)
    ensures entries == Entries(content)
  {
    hide Entries, Keep, Step, FirstComma;
    entries := [];
    var start := 0;
    var braceDepth, bracketDepth, parenDepth := 0, 0, 0;
    var inString, inLineComment, inBlockComment, escape := false, false, false, false;
    var stringChar := END;
    var index := 0;
    assert content[0..] == content;
    while index < |content|
      invariant start <= index <= |content|
      invariant !(inString && inLineComment) && !(inString && inBlockComment) && !(inLineComment && inBlockComment)
      invariant escape ==> inString
      invariant At(content, index) == Scan(
                  if inLineComment then LineComment else if inBlockComment then BlockComment
                  else if inString then InString(stringChar, escape) else Code,
                  braceDepth, bracketDepth, parenDepth)
      invariant At(content, start) == START
      invariant forall j :: start <= j < index ==> !IsTopComma(content, j)
      invariant entries + Entries(content[start..]) == Entries(content)
    {
      var c, next := content[index], CharAt(content, index + 1);
      var here := index;
      index := index + 1;
      StepCases(At(content, here), c, next);
      if inLineComment {
        if c == '\n' {
          inLineComment := false;
        }
        continue;
      }
      if inBlockComment {
        if c == '*' && next == '/' {
          inBlockComment := false;
        }
        continue;
      }
      if inString {
        if escape {
          escape := false;
          continue;
        }
        if c == '\\' {
          escape := true;
          continue;
        }
        if c == stringChar {
          inString := false;
        }
        continue;
      }
      if c == '/' && next == '/' {
        inLineComment := true;
        continue;
      }
      if c == '/' && next == '*' {
        inBlockComment := true;
        continue;
      }
      if c == '\'' || c == '"' || c == '`' {
        inString := true;
        stringChar := c;
        continue;
      }
      if c == '{' {
        braceDepth := braceDepth + 1;
        continue;
      }
      if c == '}' {
        braceDepth := braceDepth - 1;
        continue;
      }
      if c == '[' {
        bracketDepth := bracketDepth + 1;
        continue;
      }
      if c == ']' {
        bracketDepth := bracketDepth - 1;
        continue;
      }
      if c == '(' {
        parenDepth := parenDepth + 1;
        continue;
      }
      if c == ')' {
        parenDepth := parenDepth - 1;
        continue;
      }
      if c == ',' && braceDepth == 0 && bracketDepth == 0 && parenDepth == 0 {
        var entry := Strip(content[start..here]);
        EntryCut(content, start, here);
        KeepCases(content[start..here]);
        if entry != "" {
          entries := entries + [entry];
        }
        start := here + 1;
      }
    }
    var tail := Strip(content[start..]);
    EntryTail(content, start);
    KeepCases(content[start..]);
    if tail != "" {
      entries := entries + [tail];
    }
  }

  lemma KeepCases(piece: string)
    ensures Keep(piece) == if Strip(piece) == "" then [] else [Strip(piece)]
  {
  }

  lemma StepCases(sc: Scan, c: char, next: char)
    ensures !sc.mode.Code? ==> Step(sc, c, next) == sc.(mode := NextMode(sc.mode, c, next))
    ensures sc.mode.Code? && !NextMode(Code, c, next).Code? ==> Step(sc, c, next) == sc.(mode := NextMode(sc.mode, c, next))
    ensures sc.mode.Code? && NextMode(Code, c, next).Code? ==>
              Step(sc, c, next) ==
              Scan(Code,
                   sc.brace + (if c == '{' then 1 else if c == '}' then -1 else 0),
                   sc.bracket + (if c == '[' then 1 else if c == ']' then -1 else 0),
                   sc.paren + (if c == '(' then 1 else if c == ')' then -1 else 0))
  {
  }

  // ----- joining -----

  function RStripCommas(s: string): string {
    if s != "" && s[|s| - 1] == ',' then RStripCommas(s[..|s| - 1]) else s
  }

  function Cleaned(es: seq<string>): seq<string> {
    if es == [] then []
    else (if Strip(es[0]) != "" then [RStripCommas(RStrip(es[0]))] else []) + Cleaned(es[1..])
  }

  function JoinObjectEntries(es: seq<string>): string {
    Join(",\n", Cleaned(es))
  }

  // ----- an entry followed by a comma -----

  // The state inside `e` does not depend on what follows, as long as the next
  // character cannot complete a comment mark.
  lemma {:induction false} ScanPrefix(e: string, r: string, i: nat)
    requires i <= |e|
    requires r != "" ==> r[0] != '/' && r[0] != '*'
    ensures At(e + r, i) == At(e, i)
    decreases i
  {
    if i > 0 {
      ScanPrefix(e, r, i - 1);
      assert (e + r)[i - 1] == e[i - 1];
      if i < |e| {
        assert (e + r)[i] == e[i];
      }
    }
  }

  // Scanned on its own, the text returns to code at depth zero.
  ghost predicate Returns(e: string) {
    At(e, |e|) == START
  }

  lemma SplitAtComma(e: string, r: string)
    requires NoTopComma(e) && Returns(e)
    ensures Entries(e + "," + r) == Keep(e) + Entries(r)
  {
    hide Step, Keep;
    var s := e + "," + r;
    assert s == e + ("," + r);
    forall i | 0 <= i <= |e|
      ensures At(s, i) == At(e, i)
    {
      ScanPrefix(e, "," + r, i);
    }
    forall i | 0 <= i < |e|
      ensures !IsTopComma(s, i)
    {
      assert s[i] == e[i] && !IsTopComma(e, i);
    }
    FirstCommaUnique(s, |e|);
    assert s[..|e|] == e && s[|e| + 1..] == r;
  }

  // White space between entries is code that changes nothing.
  lemma NewlineIsNeutral(t: string)
    ensures Entries("\n" + t) == Entries(t)
  {
    hide Keep;
    var s := "\n" + t;
    assert s[1..] == t && At(s, 1) == START;
    forall i | 1 <= i < |s|
      ensures IsTopComma(s, i) <==> IsTopComma(t, i - 1)
    {
      ScanShift(s, 1, i - 1);
    }
    var p := FirstComma(t);
    if p == -1 {
      assert FirstComma(s) == -1;
      KeepNewline(t);
    } else {
      FirstCommaUnique(s, p + 1);
      assert s[..p + 1] == "\n" + t[..p] && s[p + 2..] == t[p + 1..];
      KeepNewline(t[..p]);
    }
  }

  lemma KeepNewline(t: string)
    ensures Keep("\n" + t) == Keep(t)
  {
    var pre, post := StripParts(t);
    assert "\n" + t == ("\n" + pre) + Strip(t) + post;
    StripUnique("\n" + pre, Strip(t), post);
  }

  // ----- split undoes join -----

  // What an entry must be, apart from its last position.
  ghost predicate IsEntry(e: string) {
    e != "" && Trimmed(e) && e[|e| - 1] != ',' && NoTopComma(e)
  }

  ghost predicate Separable(es: seq<string>) {
    && (forall k :: 0 <= k < |es| ==> IsEntry(es[k]))
    && (forall k :: 0 <= k < |es| - 1 ==> Returns(es[k]))
  }

  lemma {:induction false} CleanedEntries(es: seq<string>)
    requires forall k :: 0 <= k < |es| ==> IsEntry(es[k])
    ensures Cleaned(es) == es
    decreases |es|
  {
    hide Step;
    if es != [] {
      StripTrimmed(es[0]);
      CleanedEntries(es[1..]);
      assert RStrip(es[0]) == es[0];
    }
  }

  lemma {:induction false} SplitUndoesJoin(es: seq<string>)
    requires Separable(es)
    ensures Entries(Join(",\n", es)) == es
    decreases |es|
  {
    hide Step, Entries, Strip;
    if es == [] {
      NoCommaOneEntry("");
      StripTrimmed("");
    } else {
      var e := es[0];
      StripTrimmed(e);
      if |es| == 1 {
        NoCommaOneEntry(e);
      } else {
        var rest := Join(",\n", es[1..]);
        assert Join(",\n", es) == e + "," + ("\n" + rest);
        SplitAtComma(e, "\n" + rest);
        NewlineIsNeutral(rest);
        SplitUndoesJoin(es[1..]);
      }
    }
  }

  // ----- the converse: nothing else comes back unchanged -----

  lemma {:induction false} SpacesKeepStart(s: string, k: nat)
    requires k <= |s| && forall i :: 0 <= i < k ==> IsSpace(s[i])
    ensures At(s, k) == START
    decreases k
  {
    if k > 0 {
      SpacesKeepStart(s, k - 1);
    }
  }

  ghost predicate LooksLikeOutput(e: string) {
    e != "" && Trimmed(e) && e[0] != ','
  }

  lemma PieceShape(s: string, p: nat)
    requires p <= |s| && forall i :: 0 <= i < p ==> !IsTopComma(s, i)
    ensures forall e :: e in Keep(s[..p]) ==> LooksLikeOutput(e) && |e| <= p
  {
    hide Step, Strip;
    var pre, post := StripParts(s[..p]);
    var e := Strip(s[..p]);
    if e != "" {
      assert s[..p] == pre + (e + post);
      assert forall i :: 0 <= i < |pre| ==> s[i] == pre[i];
      SpacesKeepStart(s, |pre|);
      assert s[|pre|] == s[..p][|pre|] == e[0];
      assert !IsTopComma(s, |pre|);
    }
  }

  // Every entry the splitter returns is trimmed, non-empty, does not start
  // with a comma and is no longer than the text.
  lemma {:induction false} OutputShape(s: string)
    ensures forall e :: e in Entries(s) ==>
              LooksLikeOutput(e) && |e| <= |s| && (FirstComma(s) != -1 ==> |e| < |s|)
    decreases |s|
  {
    hide Step, Keep, FirstCommaFrom, LooksLikeOutput;
    var p := FirstComma(s);
    if p == -1 {
      PieceShape(s, |s|);
      assert s[..|s|] == s;
    } else {
      PieceShape(s, p);
      OutputShape(s[p + 1..]);
    }
  }

  lemma {:induction false} RStripCommasParts(e: string)
    ensures var c := RStripCommas(e);
            && |c| <= |e| && e[..|c|] == c
            && (forall i :: |c| <= i < |e| ==> e[i] == ',')
            && (c != "" ==> c[|c| - 1] != ',')
  {
    if e != "" && e[|e| - 1] == ',' {
      RStripCommasParts(e[..|e| - 1]);
    }
  }

  lemma NoLeadingSpace(piece: string, pre: string, rest: string)
    requires piece == pre + rest && AllSpace(pre)
    requires piece != "" && !IsSpace(piece[0])
    ensures pre == ""
  {
  }

  // In `c ,\n tail`, white space and commas leave one place for the cut.
  lemma OneBoundary(s: string, c: nat, e: nat, p: nat)
    requires c <= e <= p < |s| && c + 2 < |s|
    requires s[p] == ',' && s[c] == ',' && s[c + 1] == '\n' && s[c + 2] != ',' && !IsSpace(s[c + 2])
    requires forall i :: c <= i < e ==> s[i] == ','
    requires forall i :: e <= i < p ==> IsSpace(s[i])
    ensures e == c == p
  {
  }

  // The first entry that comes back ends where its source ended.
  lemma FirstEntryBoundary(c: string, e: string, tail: string, s: string, p: nat)
    requires LooksLikeOutput(e) && c == RStripCommas(e)
    requires tail != "" && !IsSpace(tail[0]) && tail[0] != ','
    requires s == c + ",\n" + tail
    requires p < |s| && IsTopComma(s, p) && Strip(s[..p]) == e
    ensures p == |c| && e == c
  {
    hide Step, At, Strip;
    RStripCommasParts(e);
    assert s[0] == c[0] == e[0];
    assert s[|c|] == ',' && s[|c| + 1] == '\n' && s[|c| + 2] == tail[0];
    TrimmedPiece(s, p, e);
    OneBoundary(s, |c|, |e|, p);
  }

  // A piece that starts with a visible character is its entry and white space.
  lemma TrimmedPiece(s: string, p: nat, e: string)
    requires 0 < p <= |s| && !IsSpace(s[0]) && Strip(s[..p]) == e
    ensures |e| <= p && (forall i :: 0 <= i < |e| ==> s[i] == e[i])
    ensures forall i :: |e| <= i < p ==> IsSpace(s[i])
  {
    hide Strip;
    var piece := s[..p];
    var pre, post := StripParts(piece);
    assert piece == pre + (e + post);
    NoLeadingSpace(piece, pre, e + post);
    assert forall i :: 0 <= i < p ==> s[i] == piece[i];
    assert forall i :: |e| <= i < p ==> piece[i] == post[i - |e|];
  }

  lemma KeptFirst(s: string, p: nat, rest: seq<string>, es: seq<string>)
    requires 0 < p <= |s| && !IsSpace(s[0]) && es == Keep(s[..p]) + rest
    ensures es != [] && Strip(s[..p]) == es[0] && rest == es[1..]
  {
    hide Strip;
    TrimmedPiece(s, p, Strip(s[..p]));
  }

  lemma LastBack(c: string, e: string)
    requires LooksLikeOutput(e) && c == RStripCommas(e) && Entries(c) == [e]
    ensures IsEntry(e)
  {
    hide Entries, Step, Strip, RStripCommas;
    RStripCommasParts(e);
    OutputShape(c);
    assert e in Entries(c);
    assert c == e;
  }

  lemma FirstBack(c: string, e: string, tail: string, s: string, es: seq<string>)
    requires LooksLikeOutput(e) && c == RStripCommas(e) && |es| >= 2 && es[0] == e
    requires tail != "" && !IsSpace(tail[0]) && tail[0] != ','
    requires s == c + ",\n" + tail && Entries(s) == es
    ensures IsEntry(e) && Returns(e) && c == e && Entries(tail) == es[1..]
  {
    hide Entries, Step, Strip, RStripCommas;
    RStripCommasParts(e);
    assert s[0] == c[0] == e[0];
    var p := FirstComma(s);
    if p == -1 {
      NoCommaOneEntry(s);
    }
    assert p > 0;
    EntriesStep(s, p);
    KeptFirst(s, p, Entries(s[p + 1..]), es);
    FirstEntryBoundary(c, e, tail, s, p);
    assert s[p + 1..] == "\n" + tail;
    NewlineIsNeutral(tail);
    assert s == e + (",\n" + tail);
    forall i | 0 <= i <= |e|
      ensures At(s, i) == At(e, i)
    {
      ScanPrefix(e, ",\n" + tail, i);
    }
    forall i | 0 <= i < |e|
      ensures !IsTopComma(e, i)
    {
      assert s[i] == e[i] && !IsTopComma(s, i);
    }
  }

  lemma {:induction false} JoinedBack(cs: seq<string>, es: seq<string>)
    requires |cs| == |es|
    requires forall k :: 0 <= k < |es| ==> LooksLikeOutput(es[k]) && cs[k] == RStripCommas(es[k])
    requires Entries(Join(",\n", cs)) == es
    ensures Separable(es)
    decreases |es|
  {
    hide Entries, LooksLikeOutput, RStripCommas, IsEntry, Returns;
    if |es| == 1 {
      LastBack(cs[0], es[0]);
    } else if |es| >= 2 {
      var tail := Join(",\n", cs[1..]);
      JoinHead(cs[1..], es[1]);
      FirstBack(cs[0], es[0], tail, Join(",\n", cs), es);
      JoinedBack(cs[1..], es[1..]);
    }
  }

  lemma JoinHead(cs: seq<string>, e: string)
    requires cs != [] && LooksLikeOutput(e) && cs[0] == RStripCommas(e)
    ensures var t := Join(",\n", cs); t != "" && !IsSpace(t[0]) && t[0] != ','
  {
    RStripCommasParts(e);
  }

  lemma {:induction false} CleanedOutputs(es: seq<string>)
    requires forall k :: 0 <= k < |es| ==> LooksLikeOutput(es[k])
    ensures |Cleaned(es)| == |es| && forall k :: 0 <= k < |es| ==> Cleaned(es)[k] == RStripCommas(es[k])
    decreases |es|
  {
    hide LooksLikeOutput, RStripCommas;
    if es != [] {
      OutputIsStripped(es[0]);
      CleanedOutputs(es[1..]);
    }
  }

  lemma OutputIsStripped(e: string)
    requires LooksLikeOutput(e)
    ensures e != "" && Strip(e) == e && RStrip(e) == e
  {
    StripTrimmed(e);
  }

  // Joining entries and splitting the result gives the entries back exactly
  // when each is trimmed, non-empty, without a top-level comma and not ending
  // in a comma, and each but the last returns to code at depth zero.
  lemma SplitUndoesJoinExactly(es: seq<string>)
    ensures Entries(JoinObjectEntries(es)) == es <==> Separable(es)
  {
    hide Entries, LooksLikeOutput, IsEntry, Returns, RStripCommas;
    if Separable(es) {
      CleanedEntries(es);
      SplitUndoesJoin(es);
    }
    if Entries(JoinObjectEntries(es)) == es {
      OutputShape(JoinObjectEntries(es));
      CleanedOutputs(es);
      JoinedBack(Cleaned(es), es);
    }
  }

  // ----- the raw cut: nothing but top-level commas is taken out -----

  function RawPieces(s: string): seq<string>
    decreases |s|
  {
    var p := FirstComma(s);
    if p == -1 then [s] else [s[..p]] + RawPieces(s[p + 1..])
  }

  function KeepAll(pieces: seq<string>): seq<string> {
    if pieces == [] then [] else Keep(pieces[0]) + KeepAll(pieces[1..])
  }

  function TopCommas(s: string, i: nat): nat
    requires i <= |s|
  {
    if i == 0 then 0 else TopCommas(s, i - 1) + (if IsTopComma(s, i - 1) then 1 else 0)
  }

  // The pieces joined by single commas are the text, there is one cut for each
  // top-level comma, no piece has one left, and the entries are the non-empty
  // pieces, trimmed: every other character is in exactly one entry.
  lemma {:induction false} SplitPartitions(s: string)
    ensures var pieces := RawPieces(s);
            && Join(",", pieces) == s
            && |pieces| == TopCommas(s, |s|) + 1
            && (forall k :: 0 <= k < |pieces| ==> NoTopComma(pieces[k]))
            && Entries(s) == KeepAll(pieces)
    decreases |s|
  {
    hide Step, Keep, At, IsTopComma;
    var p := FirstComma(s);
    if p == -1 {
      NoCommas(s, |s|);
      assert KeepAll([s]) == Keep(s) + KeepAll([s][1..]);
    } else {
      var rest := s[p + 1..];
      SplitPartitions(rest);
      FirstCut(s, p);
      assert RawPieces(s)[1..] == RawPieces(rest);
      CommasShift(s, p + 1, |rest|);
    }
  }

  lemma FirstCut(s: string, p: nat)
    requires p < |s| && FirstComma(s) == p
    ensures s == s[..p] + "," + s[p + 1..]
    ensures At(s, p + 1) == START && TopCommas(s, p + 1) == 1
    ensures NoTopComma(s[..p])
  {
    hide Step;
    NoCommas(s, p);
    CommaIsNeutral(At(s, p), s[p], CharAt(s, p + 1));
    PrefixNoCommas(s, p);
  }

  lemma PrefixNoCommas(s: string, p: nat)
    requires p < |s| && s[p] == ',' && forall i :: 0 <= i < p ==> !IsTopComma(s, i)
    ensures NoTopComma(s[..p])
  {
    hide Step;
    var e := s[..p];
    assert s == e + s[p..];
    forall i | 0 <= i < p
      ensures !IsTopComma(e, i)
    {
      ScanPrefix(e, s[p..], i);
      assert e[i] == s[i] && !IsTopComma(s, i);
    }
  }

  lemma {:induction false} NoCommas(s: string, i: nat)
    requires i <= |s| && forall j :: 0 <= j < i ==> !IsTopComma(s, j)
    ensures TopCommas(s, i) == 0
  {
    if i > 0 {
      NoCommas(s, i - 1);
    }
  }

  lemma {:induction false} CommasShift(s: string, k: nat, i: nat)
    requires k + i <= |s| && At(s, k) == START
    ensures TopCommas(s, k + i) == TopCommas(s, k) + TopCommas(s[k..], i)
  {
    if i > 0 {
      CommasShift(s, k, i - 1);
      ScanShift(s, k, i - 1);
    }
  }

  // ----- the matching delimiter -----

  function ModeAt(s: string, i: nat): Mode
    requires i <= |s|
  {
    if i == 0 then Code else NextMode(ModeAt(s, i - 1), s[i - 1], CharAt(s, i))
  }

  predicate CodeAt(s: string, i: nat)
    requires i < |s|
  {
    IsCode(ModeAt(s, i), s[i], CharAt(s, i + 1))
  }

  // Openers minus closers among the first `i` characters read as code.
  function Depth(s: string, i: nat, open: char, close: char): int
    requires i <= |s|
  {
    if i == 0 then 0
    else Depth(s, i - 1, open, close) +
         (if !CodeAt(s, i - 1) then 0 else if s[i - 1] == open then 1 else if s[i - 1] == close then -1 else 0)
  }

  ghost predicate Closes(s: string, i: nat, open: char, close: char)
    requires i < |s|
  {
    CodeAt(s, i) && s[i] == close && s[i] != open && Depth(s, i + 1, open, close) == 0
  }

  // The least index, from `openIndex` on, at which a closer outside strings
  // and comments brings the depth back to zero, or -1 when there is none.
  method FindMatchingDelimiter(content: string, openIndex: nat, open: char, close: char) returns (r: int)
    requires openIndex <= |content|
    ensures var s := content[openIndex..];
            if r == -1 then forall i :: 0 <= i < |s| ==> !Closes(s, i, open, close)
            else
              && openIndex <= r < |content|
              && Closes(s, r - openIndex, open, close)
              && forall i :: 0 <= i < r - openIndex ==> !Closes(s, i, open, close)
  {
    ghost var s := content[openIndex..];
    var depth := 0;
    var inString, inLineComment, inBlockComment, escape := false, false, false, false;
    var stringChar := END;
    var index := openIndex;
    while index < |content|
      invariant openIndex <= index <= |content|
      invariant !(inString && inLineComment) && !(inString && inBlockComment) && !(inLineComment && inBlockComment)
      invariant escape ==> inString
      invariant ModeAt(s, index - openIndex) ==
                  if inLineComment then LineComment else if inBlockComment then BlockComment
                  else if inString then InString(stringChar, escape) else Code
      invariant depth == Depth(s, index - openIndex, open, close)
      invariant forall i :: 0 <= i < index - openIndex ==> !Closes(s, i, open, close)
    {
      var c, next := content[index], CharAt(content, index + 1);
      assert c == s[index - openIndex] && next == CharAt(s, index - openIndex + 1);
      var here := index;
      index := index + 1;
      if inLineComment {
        if c == '\n' {
          inLineComment := false;
        }
        continue;
      }
      if inBlockComment {
        if c == '*' && next == '/' {
          inBlockComment := false;
        }
        continue;
      }
      if inString {
        if escape {
          escape := false;
          continue;
        }
        if c == '\\' {
          escape := true;
          continue;
        }
        if c == stringChar {
          inString := false;
        }
        continue;
      }
      if c == '/' && next == '/' {
        inLineComment := true;
        continue;
      }
      if c == '/' && next == '*' {
        inBlockComment := true;
        continue;
      }
      if c == '\'' || c == '"' || c == '`' {
        inString := true;
        stringChar := c;
        continue;
      }
      if c == open {
        depth := depth + 1;
        continue;
      }
      if c == close {
        depth := depth - 1;
        if depth == 0 {
          return here;
        }
      }
    }
    return -1;
  }

  // ----- properly nested source, by a stack of open brackets -----

  datatype Nesting = Mismatch | Pending(stack: seq<char>)

  predicate IsOpener(c: char) {
    c == '{' || c == '[' || c == '('
  }

  predicate Pairs(open: char, close: char) {
    (open == '{' && close == '}') || (open == '[' && close == ']') || (open == '(' && close == ')')
  }

  function Nest(n: Nesting, c: char): Nesting {
    if n.Mismatch? then Mismatch
    else if IsOpener(c) then Pending(n.stack + [c])
    else if c == '}' || c == ']' || c == ')' then
      if n.stack != [] && Pairs(n.stack[|n.stack| - 1], c) then Pending(n.stack[..|n.stack| - 1]) else Mismatch
    else n
  }

  // The brackets that are open after the first `i` characters.
  function NestAt(s: string, i: nat): Nesting
    requires i <= |s|
  {
    if i == 0 then Pending([])
    else if CodeAt(s, i - 1) then Nest(NestAt(s, i - 1), s[i - 1])
    else NestAt(s, i - 1)
  }

  function Count(stack: seq<char>, c: char): nat {
    if stack == [] then 0 else Count(stack[..|stack| - 1], c) + (if stack[|stack| - 1] == c then 1 else 0)
  }

  // The bracket that opens at 0 is closed at `j`, with proper nesting inside.
  ghost predicate NestedUntil(s: string, j: nat) {
    && j < |s| && s[0] == '{'
    && NestAt(s, j + 1) == Pending([])
    && forall i :: 1 <= i <= j ==> NestAt(s, i).Pending? && NestAt(s, i).stack != []
  }

  lemma NestCounts(n: Nesting, c: char, open: char, close: char)
    requires n.Pending? && Nest(n, c).Pending? && Pairs(open, close)
    ensures Count(Nest(n, c).stack, open) ==
            Count(n.stack, open) + (if c == open then 1 else if c == close then -1 else 0)
  {
    if IsOpener(c) {
      assert (n.stack + [c])[..|n.stack|] == n.stack;
    }
  }

  lemma {:induction false} DepthIsCount(s: string, i: nat, open: char, close: char)
    requires i <= |s| && NestAt(s, i).Pending? && Pairs(open, close)
    ensures Depth(s, i, open, close) == Count(NestAt(s, i).stack, open)
  {
    hide CodeAt, Nest, Count;
    if i > 0 {
      NestPending(NestAt(s, i - 1), s[i - 1]);
      DepthIsCount(s, i - 1, open, close);
      if CodeAt(s, i - 1) {
        NestCounts(NestAt(s, i - 1), s[i - 1], open, close);
      }
    } else {
      CountNothing(open);
    }
  }

  lemma NestPending(n: Nesting, c: char)
    ensures n.Mismatch? ==> Nest(n, c).Mismatch?
  {
  }

  lemma CountNothing(c: char)
    ensures Count([], c) == 0
  {
  }

  lemma {:induction false} CountBottom(stack: seq<char>, c: char)
    requires stack != [] && stack[0] == c
    ensures Count(stack, c) >= 1
  {
    if |stack| > 1 {
      CountBottom(stack[..|stack| - 1], c);
    }
  }

  // The splitter's depths are these depths.
  lemma {:induction false} AtIsDepths(s: string, i: nat)
    requires i <= |s|
    ensures At(s, i) == Scan(ModeAt(s, i), Depth(s, i, '{', '}'), Depth(s, i, '[', ']'), Depth(s, i, '(', ')'))
  {
    if i > 0 {
      AtIsDepths(s, i - 1);
      StepCases(At(s, i - 1), s[i - 1], CharAt(s, i));
    }
  }

  lemma {:induction false} BottomStays(s: string, j: nat, i: nat)
    requires NestedUntil(s, j) && 1 <= i <= j
    ensures NestAt(s, i).stack[0] == '{'
    decreases i
  {
    assert NestAt(s, 1).Pending?;
    if i == 1 {
      assert NestAt(s, 0) == Pending([]);
    } else {
      BottomStays(s, j, i - 1);
      assert NestAt(s, i - 1).Pending? && NestAt(s, i).Pending?;
    }
  }

  lemma DepthInside(s: string, j: nat, i: nat)
    requires NestedUntil(s, j) && 1 <= i <= j
    ensures Depth(s, i, '{', '}') >= 1 && Depth(s, i, '[', ']') >= 0 && Depth(s, i, '(', ')') >= 0
  {
    hide NestAt, Depth, Count;
    assert NestAt(s, i).Pending?;
    BottomStays(s, j, i);
    DepthIsCount(s, i, '{', '}');
    DepthIsCount(s, i, '[', ']');
    DepthIsCount(s, i, '(', ')');
    CountBottom(NestAt(s, i).stack, '{');
  }

  lemma AtTheClose(s: string, j: nat)
    requires NestedUntil(s, j)
    ensures j >= 1 && CodeAt(s, j) && s[j] == '}' && NestAt(s, j) == Pending(['{'])
  {
    assert NestAt(s, 0) == Pending([]);
    if j >= 1 {
      assert NestAt(s, j).Pending? && NestAt(s, j).stack != [];
      BottomStays(s, j, j);
    }
  }

  lemma {:induction false} ShiftOverOpener(s: string, i: nat)
    requires 1 + i <= |s| && s[0] == '{'
    ensures var a, b := At(s, 1 + i), At(s[1..], i);
            a == b.(brace := b.brace + 1)
  {
    if i > 0 {
      ShiftOverOpener(s, i - 1);
      StepCases(At(s, i), s[i], CharAt(s, i + 1));
      StepCases(At(s[1..], i - 1), s[i], CharAt(s, i + 1));
    }
  }

  // On properly nested source the two scanners agree: the matching delimiter
  // is where the bracket stack empties, and the splitter scans the body in
  // between without a negative depth and back to code at depth zero.
  lemma ScannersAgree(s: string, j: nat)
    requires NestedUntil(s, j)
    ensures Closes(s, j, '{', '}') && forall i :: 0 <= i < j ==> !Closes(s, i, '{', '}')
    ensures var body := s[1..j];
            && Returns(body)
            && forall i :: 0 <= i <= |body| ==>
                 At(body, i).brace >= 0 && At(body, i).bracket >= 0 && At(body, i).paren >= 0
  {
    hide NestAt, Step, At, Depth, Count, CodeAt;
    AtTheClose(s, j);
    DepthIsCount(s, j + 1, '{', '}');
    CountNothing('{');
    forall i | 0 <= i < j
      ensures !Closes(s, i, '{', '}')
    {
      DepthInside(s, j, i + 1);
    }
    var body := s[1..j];
    forall i | 0 <= i <= |body|
      ensures At(s, 1 + i) == At(body, i).(brace := At(body, i).brace + 1)
      ensures At(s, 1 + i) == Scan(ModeAt(s, 1 + i), Depth(s, 1 + i, '{', '}'), Depth(s, 1 + i, '[', ']'), Depth(s, 1 + i, '(', ')'))
      ensures At(body, i).brace >= 0 && At(body, i).bracket >= 0 && At(body, i).paren >= 0
    {
      assert s[1..] == body + s[j..];
      ScanPrefix(body, s[j..], i);
      ShiftOverOpener(s, i);
      AtIsDepths(s, 1 + i);
      DepthInside(s, j, 1 + i);
    }
    BodyEnds(s, j);
  }

  lemma BodyEnds(s: string, j: nat)
    requires NestedUntil(s, j)
    ensures 1 <= j && ModeAt(s, j) == Code
    ensures Depth(s, j, '{', '}') == 1 && Depth(s, j, '[', ']') == 0 && Depth(s, j, '(', ')') == 0
  {
    hide NestAt, Depth;
    AtTheClose(s, j);
    DepthIsCount(s, j, '{', '}');
    DepthIsCount(s, j, '[', ']');
    DepthIsCount(s, j, '(', ')');
    assert ['{'][..0] == [];
  }

  // The object body from `openIndex` on, when its closing brace is found.
  method ExtractBody(content: string, openIndex: nat) returns (found: bool, body: string)
    requires openIndex < |content| && content[openIndex] == '{'
    ensures var s := content[openIndex..];
            && (found ==> exists j :: 0 < j < |s| && Closes(s, j, '{', '}') && body == s[1..j]
                                      && forall i :: 0 <= i < j ==> !Closes(s, i, '{', '}'))
            && (!found ==> forall i :: 0 <= i < |s| ==> !Closes(s, i, '{', '}'))
            && forall j: nat :: NestedUntil(s, j) ==> found && body == s[1..j] && Returns(body)
  {
    hide NestedUntil, Returns, Depth;
    ghost var s := content[openIndex..];
    var closeIndex := FindMatchingDelimiter(content, openIndex, '{', '}');
    forall j: nat | NestedUntil(s, j)
      ensures j < |s| && Closes(s, j, '{', '}') && Returns(s[1..j]) && forall i :: 0 <= i < j ==> !Closes(s, i, '{', '}')
    {
      NestedInRange(s, j);
      ScannersAgree(s, j);
    }
    if closeIndex < 0 {
      return false, "";
    }
    found, body := true, content[openIndex + 1..closeIndex];
    assert body == s[1..closeIndex - openIndex];
  }

  lemma NestedInRange(s: string, j: nat)
    requires NestedUntil(s, j)
    ensures j < |s|
  {
  }

  // ----- what is read as code: strings, comments and the rest -----

  // The text of a string up to its closing quote: a backslash takes the next
  // character with it, and no other quote of the kind is in it.
  ghost predicate IsBody(q: char, body: string)
    decreases |body|
  {
    || body == ""
    || (body[0] == '\\' && |body| >= 2 && IsBody(q, body[2..]))
    || (body[0] != '\\' && body[0] != q && IsBody(q, body[1..]))
  }

  predicate IsQuote(c: char) {
    c == '\'' || c == '"' || c == '`'
  }

  // Inside a string from `i` on, an unescaped text is read without leaving it.
  lemma {:induction false} BodyStaysInString(s: string, i: nat, j: nat, q: char)
    requires i <= j <= |s| && ModeAt(s, i) == InString(q, false) && IsBody(q, s[i..j])
    ensures ModeAt(s, j) == InString(q, false)
    ensures forall k :: i <= k < j ==> ModeAt(s, k).InString?
    decreases j - i
  {
    if i < j {
      var body := s[i..j];
      assert body[0] == s[i];
      if body[0] == '\\' {
        assert s[i + 1] == body[1];
        assert ModeAt(s, i + 1) == InString(q, true) && ModeAt(s, i + 2) == InString(q, false);
        assert body[2..] == s[i + 2..j];
        BodyStaysInString(s, i + 2, j, q);
      } else {
        assert ModeAt(s, i + 1) == InString(q, false);
        assert body[1..] == s[i + 1..j];
        BodyStaysInString(s, i + 1, j, q);
      }
    }
  }

  // A quote in code opens a string that ends at the next quote of its kind
  // that no backslash escapes; nothing in between is read as code.
  lemma StringIsSkipped(s: string, i: nat, j: nat)
    requires i < j < |s| && ModeAt(s, i).Code? && IsQuote(s[i])
    requires IsBody(s[i], s[i + 1..j]) && s[j] == s[i]
    ensures ModeAt(s, j + 1).Code? && forall k :: i <= k <= j ==> !CodeAt(s, k)
  {
    BodyStaysInString(s, i + 1, j, s[i]);
  }

  // A string that is not closed takes in the rest of the text.
  lemma OpenStringTakesAll(s: string, i: nat)
    requires i < |s| && ModeAt(s, i).Code? && IsQuote(s[i]) && IsBody(s[i], s[i + 1..])
    ensures forall k :: i <= k < |s| ==> !CodeAt(s, k)
  {
    hide IsBody;
    assert s[i + 1..|s|] == s[i + 1..];
    assert ModeAt(s, i + 1) == InString(s[i], false);
    hide ModeAt;
    BodyStaysInString(s, i + 1, |s|, s[i]);
  }

  lemma {:induction false} InLineComment(s: string, i: nat, j: nat)
    requires i <= j <= |s| && ModeAt(s, i).LineComment? && '\n' !in s[i..j]
    ensures forall k :: i <= k <= j ==> ModeAt(s, k).LineComment?
    decreases j - i
  {
    if i < j {
      assert s[i] == s[i..j][0];
      assert s[i + 1..j] == s[i..j][1..];
      InLineComment(s, i + 1, j);
    }
  }

  // Two slashes in code open a comment up to the end of the line.
  lemma LineCommentIsSkipped(s: string, i: nat, j: nat)
    requires i + 2 <= j <= |s| && ModeAt(s, i).Code? && s[i] == '/' && s[i + 1] == '/' && '\n' !in s[i + 1..j]
    ensures forall k :: i <= k < j ==> !CodeAt(s, k)
    ensures j < |s| && s[j] == '\n' ==> !CodeAt(s, j) && ModeAt(s, j + 1).Code?
  {
    assert ModeAt(s, i + 1).LineComment?;
    InLineComment(s, i + 1, j);
  }

  lemma {:induction false} InBlockComment(s: string, i: nat, j: nat)
    requires i <= j <= |s| && ModeAt(s, i).BlockComment?
    requires forall k :: i <= k < j ==> !(s[k] == '*' && CharAt(s, k + 1) == '/')
    ensures forall k :: i <= k <= j ==> ModeAt(s, k).BlockComment?
    decreases j - i
  {
    if i < j {
      InBlockComment(s, i + 1, j);
    }
  }

  // A slash and a star in code open a comment up to the next star that a slash
  // follows; that may be the star that opens it. The slash is code again.
  lemma BlockCommentIsSkipped(s: string, i: nat, j: nat)
    requires i + 1 <= j <= |s| && ModeAt(s, i).Code? && s[i] == '/' && CharAt(s, i + 1) == '*'
    requires forall k :: i + 1 <= k < j ==> !(s[k] == '*' && CharAt(s, k + 1) == '/')
    ensures forall k :: i <= k < j ==> !CodeAt(s, k)
    ensures j < |s| && s[j] == '*' && CharAt(s, j + 1) == '/' ==> !CodeAt(s, j) && ModeAt(s, j + 1).Code?
  {
    assert ModeAt(s, i + 1).BlockComment?;
    InBlockComment(s, i + 1, j);
  }

  // Any other character in code is read as code.
  lemma RestIsCode(s: string, i: nat)
    requires i < |s| && ModeAt(s, i).Code?
    requires !IsQuote(s[i]) && !(s[i] == '/' && (CharAt(s, i + 1) == '/' || CharAt(s, i + 1) == '*'))
    ensures CodeAt(s, i) && ModeAt(s, i + 1).Code?
  {
  }

  // ----- what is joined -----

  ghost predicate AllCommas(s: string) {
    forall i :: 0 <= i < |s| ==> s[i] == ','
  }

  // The entry without the white space at its end and the commas before that.
  ghost predicate IsCleaned(e: string, r: string) {
    exists commas, blank :: IsCleaning(e, r, commas, blank)
  }

  ghost predicate IsCleaning(e: string, r: string, commas: string, blank: string) {
    && e == r + commas + blank && AllCommas(commas) && AllSpace(blank)
    && (r != "" ==> r[|r| - 1] != ',')
    && (r + commas != "" ==> !IsSpace((r + commas)[|r + commas| - 1]))
  }

  lemma {:induction false} CommasCut(s: string) returns (commas: string)
    ensures AllCommas(commas) && s == RStripCommas(s) + commas
    ensures RStripCommas(s) != "" ==> RStripCommas(s)[|RStripCommas(s)| - 1] != ','
    decreases |s|
  {
    commas := "";
    if s != "" && s[|s| - 1] == ',' {
      commas := CommasCut(s[..|s| - 1]);
      commas := commas + ",";
    }
  }

  lemma EntryCleaned(e: string)
    ensures IsCleaned(e, RStripCommas(RStrip(e)))
  {
    hide RStrip, RStripCommas;
    var blank := RStripParts(e);
    var commas := CommasCut(RStrip(e));
    assert IsCleaning(e, RStripCommas(RStrip(e)), commas, blank);
  }

  // Joined are the entries that are not blank, each cleaned, in order.
  lemma {:induction false} CleanedInOrder(a: seq<string>, b: seq<string>)
    ensures Cleaned(a + b) == Cleaned(a) + Cleaned(b)
    decreases |a|
  {
    hide Strip, RStrip, RStripCommas;
    if a == [] {
      assert a + b == b;
    } else {
      var all := a + b;
      assert all[1..] == a[1..] + b && all[0] == a[0];
      CleanedInOrder(a[1..], b);
    }
  }

  lemma CleanedOne(e: string)
    ensures AllSpace(e) ==> Cleaned([e]) == []
    ensures !AllSpace(e) ==> |Cleaned([e])| == 1 && IsCleaned(e, Cleaned([e])[0])
  {
    hide Strip, RStrip, RStripCommas, IsCleaned, AllSpace;
    BlankIs(e);
    EntryCleaned(e);
    assert [e][1..] == [] && Cleaned([]) == [];
  }

  lemma BlankIs(e: string)
    ensures Strip(e) == "" <==> AllSpace(e)
  {
    hide Strip;
    var pre, post := StripParts(e);
    if AllSpace(e) {
      StripUnique(e, "", "");
      assert e + "" + "" == e;
    }
    if Strip(e) == "" {
      assert e == pre + post;
    }
  }

  // The splitter cuts at the commas that are read as code outside all brackets.
  lemma TopCommaSays(s: string, i: nat)
    requires i < |s|
    ensures IsTopComma(s, i) <==>
            && s[i] == ',' && CodeAt(s, i)
            && Depth(s, i, '{', '}') == 0 && Depth(s, i, '[', ']') == 0 && Depth(s, i, '(', ')') == 0
  {
    hide Depth;
    AtIsDepths(s, i);
  }
}
