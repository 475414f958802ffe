/** The JSONC comment stripper. A text falls into code characters, string literals, line
    comments and block comments in exactly one way; stripping keeps the first two kinds. */
module JsoncComments {

  datatype Segment =
    | Code(character: char)
    | Literal(text: string)
    | LineComment(text: string)
    | BlockComment(text: string)
  {
    function Text(): string {
      if Code? then [character] else text
    }

    predicate IsComment() {
      LineComment? || BlockComment?
    }

    /** Whether a text that goes on with `rest` may begin with this segment. */
    predicate Fits(rest: string) {
      match this
      case Code(c) => c != '\"' && !(c == '/' && rest != "" && (rest[0] == '/' || rest[0] == '*'))
      case Literal(t) => IsClosedLiteral(t) || (rest == "" && IsOpenLiteral(t))
      case LineComment(t) => IsLineComment(t) && (rest == "" || rest[0] == '\n')
      case BlockComment(t) => IsClosedBlock(t) || (rest == "" && IsOpenBlock(t))
    }
  }

  /** A row of string characters (section 7 of RFC 8259): neither a quote nor a backslash, or
      a backslash and whatever it escapes. */
  predicate AreStringCharacters(t: string) {
    if t == "" then true
    else if t[0] == '\\' then |t| >= 2 && AreStringCharacters(t[2..])
    else t[0] != '\"' && AreStringCharacters(t[1..])
  }

  predicate IsClosedLiteral(t: string) {
    |t| >= 2 && t[0] == '\"' && t[|t| - 1] == '\"' && AreStringCharacters(t[1..|t| - 1])
  }

  /** A literal the text ends inside of, perhaps just after a backslash. */
  predicate IsOpenLiteral(t: string) {
    && |t| >= 1 && t[0] == '\"'
    && (AreStringCharacters(t[1..]) || (|t| >= 2 && t[|t| - 1] == '\\' && AreStringCharacters(t[1..|t| - 1])))
  }

  predicate IsLineComment(t: string) {
    |t| >= 2 && t[0] == '/' && t[1] == '/' && '\n' !in t
  }

  predicate ClosesAt(t: string, k: nat) {
    k + 1 < |t| && t[k] == '*' && t[k + 1] == '/'
  }

  predicate IsClosedBlock(t: string) {
    && |t| >= 4 && t[0] == '/' && t[1] == '*' && ClosesAt(t, |t| - 2)
    && forall k :: 2 <= k < |t| - 2 ==> !ClosesAt(t, k)
  }

  predicate IsOpenBlock(t: string) {
    |t| >= 2 && t[0] == '/' && t[1] == '*' && forall k :: 2 <= k < |t| ==> !ClosesAt(t, k)
  }

  function Flatten(segments: seq<Segment>): string {
    if segments == [] then "" else segments[0].Text() + Flatten(segments[1..])
  }

  predicate WellFormed(segments: seq<Segment>) {
    segments != [] ==> segments[0].Fits(Flatten(segments[1..])) && WellFormed(segments[1..])
  }

  predicate IsSegmentation(segments: seq<Segment>, text: string) {
    Flatten(segments) == text && WellFormed(segments)
  }

  function Kept(segments: seq<Segment>): (kept: seq<Segment>)
    ensures forall i :: 0 <= i < |kept| ==> !kept[i].IsComment()
  {
    if segments == [] then []
    else (if segments[0].IsComment() then [] else [segments[0]]) + Kept(segments[1..])
  }

  // ----- The segmentation exists -------------------------------------------

  /** How far a literal reaches past its opening quote. */
  function LiteralReach(t: string): (n: nat)
    ensures n <= |t|
  {
    if t == "" then 0
    else if t[0] == '\"' then 1
    else if t[0] == '\\' then if |t| == 1 then 1 else 2 + LiteralReach(t[2..])
    else 1 + LiteralReach(t[1..])
  }

  predicate IsLiteralTail(t: string) {
    |t| >= 1 && t[|t| - 1] == '\"' && AreStringCharacters(t[..|t| - 1])
  }

  predicate IsOpenTail(t: string) {
    AreStringCharacters(t) || (|t| >= 1 && t[|t| - 1] == '\\' && AreStringCharacters(t[..|t| - 1]))
  }

  predicate IsReach(t: string, n: nat) {
    n <= |t| && (IsLiteralTail(t[..n]) || (n == |t| && IsOpenTail(t)))
  }

  lemma {:induction false} LiteralReachIsLiteral(t: string)
    ensures IsReach(t, LiteralReach(t))
  {
    if t == "" {
    } else if t[0] == '\"' {
      assert t[..1][..|t[..1]| - 1] == "";
      assert IsLiteralTail(t[..1]);
    } else if |t| == 1 {
      assert t[..|t| - 1] == "" && t[1..] == "" && t[..1] == t;
      assert IsOpenTail(t);
    } else {
      var step := if t[0] == '\\' then 2 else 1;
      LiteralReachIsLiteral(t[step..]);
      ReachGoesOn(t, step, LiteralReach(t[step..]));
    }
  }

  lemma ReachGoesOn(t: string, step: nat, n: nat)
    requires t != "" && t[0] != '\"' && step == if t[0] == '\\' then 2 else 1
    requires step <= |t| && IsReach(t[step..], n)
    ensures IsReach(t, step + n)
  {
    hide AreStringCharacters;
    var rest, m := t[step..], step + n;
    if IsLiteralTail(rest[..n]) {
      assert rest[..n][..n - 1] == rest[..n - 1] == t[..m - 1][step..];
      PrependCharacter(t[..m - 1], step, rest[..n - 1]);
      assert t[..m][..m - 1] == t[..m - 1];
    } else if AreStringCharacters(rest) {
      PrependCharacter(t, step, rest);
    } else {
      assert rest[..n - 1] == t[..m - 1][step..];
      PrependCharacter(t[..m - 1], step, rest[..n - 1]);
    }
  }

  lemma PrependCharacter(t: string, step: nat, rest: string)
    requires t != "" && t[0] != '\"' && step == if t[0] == '\\' then 2 else 1
    requires step <= |t| && t[step..] == rest && AreStringCharacters(rest)
    ensures AreStringCharacters(t)
  {
  }

  /** A backslash and what it escapes, be it a quote, stay inside a string. */
  lemma {:induction false} EscapesStayInside(before: string, escaped: char, after: string)
    requires AreStringCharacters(before) && AreStringCharacters(after)
    ensures AreStringCharacters(before + ['\\', escaped] + after)
  {
    var whole := before + ['\\', escaped] + after;
    if before == "" {
      assert whole[2..] == after;
    } else {
      var step := if before[0] == '\\' then 2 else 1;
      EscapesStayInside(before[step..], escaped, after);
      assert whole[step..] == before[step..] + ['\\', escaped] + after;
    }
  }

  /** A quote that nothing escapes ends the string. */
  lemma {:induction false} QuoteEndsTheString(before: string, after: string)
    requires AreStringCharacters(before)
    ensures !AreStringCharacters(before + "\"" + after)
  {
    var whole := before + "\"" + after;
    if before != "" {
      var step := if before[0] == '\\' then 2 else 1;
      QuoteEndsTheString(before[step..], after);
      assert whole[step..] == before[step..] + "\"" + after;
    }
  }

  function LineReach(t: string): (n: nat)
    ensures n <= |t| && '\n' !in t[..n] && (n < |t| ==> t[n] == '\n')
  {
    if t == "" || t[0] == '\n' then 0 else 1 + LineReach(t[1..])
  }

  /** How far a block comment reaches past its opener. */
  function BlockReach(t: string): (n: nat)
    ensures n <= |t|
  {
    if t == "" then 0 else if ClosesAt(t, 0) then 2 else 1 + BlockReach(t[1..])
  }

  lemma {:induction false} BlockReachIsFirstClose(t: string)
    ensures var n := BlockReach(t);
            || (n >= 2 && ClosesAt(t, n - 2) && forall k :: 0 <= k < n - 2 ==> !ClosesAt(t, k))
            || (n == |t| && forall k :: 0 <= k < n ==> !ClosesAt(t, k))
  {
    if t != "" && !ClosesAt(t, 0) {
      BlockReachIsFirstClose(t[1..]);
      assert forall k :: 0 < k < |t| ==> ClosesAt(t, k) == ClosesAt(t[1..], k - 1);
    }
  }

  predicate Opens(text: string, second: char) {
    |text| >= 2 && text[0] == '/' && text[1] == second
  }

  function FirstSegment(text: string): (first: Segment)
    requires text != ""
    ensures 0 < |first.Text()| <= |text| && first.Text() == text[..|first.Text()|]
  {
    if text[0] == '\"' then Literal(text[..1 + LiteralReach(text[1..])])
    else if Opens(text, '/') then LineComment(text[..2 + LineReach(text[2..])])
    else if Opens(text, '*') then BlockComment(text[..2 + BlockReach(text[2..])])
    else Code(text[0])
  }

  function Segments(text: string): seq<Segment> {
    if text == "" then []
    else
      var first := FirstSegment(text);
      [first] + Segments(text[|first.Text()|..])
  }

  lemma FirstLiteralFits(text: string)
    requires text != "" && text[0] == '\"'
    ensures var t := text[..1 + LiteralReach(text[1..])];
            IsClosedLiteral(t) || (t == text && IsOpenLiteral(t))
  {
    hide AreStringCharacters;
    var tail, n := text[1..], LiteralReach(text[1..]);
    var t := text[..1 + n];
    LiteralReachIsLiteral(tail);
    assert t[1..] == tail[..n];
    if IsLiteralTail(tail[..n]) {
      assert t[1..|t| - 1] == tail[..n][..n - 1];
    } else {
      assert tail[..n] == tail && t == text;
      if n > 0 {
        assert t[1..|t| - 1] == tail[..n - 1];
      }
    }
  }

  lemma FirstBlockFits(text: string)
    requires Opens(text, '*')
    ensures var t := text[..2 + BlockReach(text[2..])];
            IsClosedBlock(t) || (t == text && IsOpenBlock(t))
  {
    hide BlockReach;
    var t := text[..2 + BlockReach(text[2..])];
    BlockReachIsFirstClose(text[2..]);
    assert forall k :: 2 <= k && k + 1 < |t| ==> ClosesAt(t, k) == ClosesAt(text[2..], k - 2);
  }

  lemma FirstSegmentFits(text: string)
    requires text != ""
    ensures FirstSegment(text).Fits(text[|FirstSegment(text).Text()|..])
  {
    hide AreStringCharacters;
    var first := FirstSegment(text);
    match first
    case Code(c) =>
    case Literal(_) => FirstLiteralFits(text);
    case LineComment(t) =>
      assert t == text[..2] + text[2..][..|t| - 2];
    case BlockComment(_) => FirstBlockFits(text);
  }

  /** Every text falls into segments. */
  lemma {:induction false} SegmentsSegment(text: string)
    ensures IsSegmentation(Segments(text), text)
    decreases |text|
  {
    if text != "" {
      var first := FirstSegment(text);
      var rest := text[|first.Text()|..];
      FirstSegmentFits(text);
      SegmentsSegment(rest);
      assert Segments(text)[1..] == Segments(rest);
      assert text == first.Text() + rest;
    }
  }

  // ----- The segmentation is unique ----------------------------------------

  lemma {:induction false} ClosedLiteralReach(u: string, rest: string)
    requires AreStringCharacters(u)
    ensures LiteralReach(u + "\"" + rest) == |u| + 1
  {
    var t := u + "\"" + rest;
    if u != "" {
      var step := if u[0] == '\\' then 2 else 1;
      ClosedLiteralReach(u[step..], rest);
      assert t[step..] == u[step..] + "\"" + rest;
    }
  }

  lemma {:induction false} OpenLiteralReach(u: string, tail: string)
    requires AreStringCharacters(u) && (tail == "" || tail == "\\")
    ensures LiteralReach(u + tail) == |u + tail|
  {
    if u == "" {
      assert u + tail == tail;
    } else {
      var step := if u[0] == '\\' then 2 else 1;
      OpenLiteralReach(u[step..], tail);
      assert (u + tail)[step..] == u[step..] + tail;
    }
  }

  lemma LiteralsAreForced(t: string, rest: string)
    requires Literal(t).Fits(rest)
    ensures FirstSegment(t + rest) == Literal(t)
  {
    hide AreStringCharacters, LiteralReach;
    var text := t + rest;
    if IsClosedLiteral(t) {
      ClosedLiteralReach(t[1..|t| - 1], rest);
      assert text[1..] == t[1..|t| - 1] + "\"" + rest;
    } else if AreStringCharacters(t[1..]) {
      OpenLiteralReach(t[1..], "");
      assert text[1..] == t[1..] + "";
    } else {
      OpenLiteralReach(t[1..|t| - 1], "\\");
      assert text[1..] == t[1..|t| - 1] + "\\";
    }
    assert text[..|t|] == t;
  }

  lemma LineCommentsAreForced(t: string, rest: string)
    requires LineComment(t).Fits(rest)
    ensures FirstSegment(t + rest) == LineComment(t)
  {
    var text := t + rest;
    var reach := LineReach(text[2..]);
    assert forall k :: 0 <= k < |t| - 2 ==> text[2..][k] == t[k + 2] != '\n';
    assert rest != "" ==> text[2..][|t| - 2] == '\n';
    assert text[..|t|] == t;
  }

  lemma ClosedBlockReach(t: string, m: nat)
    requires ClosesAt(t, m) && forall k :: 0 <= k < m ==> !ClosesAt(t, k)
    ensures BlockReach(t) == m + 2
  {
    BlockReachIsFirstClose(t);
    var n := BlockReach(t);
    if n >= 2 && ClosesAt(t, n - 2) {
      assert !(n - 2 < m);
    }
  }

  lemma OpenBlockReach(t: string)
    requires forall k :: 0 <= k < |t| ==> !ClosesAt(t, k)
    ensures BlockReach(t) == |t|
  {
    BlockReachIsFirstClose(t);
  }

  lemma BlockCommentsAreForced(t: string, rest: string)
    requires BlockComment(t).Fits(rest)
    ensures FirstSegment(t + rest) == BlockComment(t)
  {
    hide BlockReach;
    var text := t + rest;
    assert forall k :: 0 <= k && k + 3 < |t| ==> ClosesAt(text[2..], k) == ClosesAt(t, k + 2);
    if IsClosedBlock(t) {
      ClosedBlockReach(text[2..], |t| - 4);
    } else {
      OpenBlockReach(text[2..]);
    }
    assert text[..|t|] == t;
  }

  lemma FirstSegmentIsForced(first: Segment, rest: string)
    requires first.Fits(rest)
    ensures first.Text() != "" && FirstSegment(first.Text() + rest) == first
  {
    match first
    case Code(c) =>
    case Literal(t) => LiteralsAreForced(t, rest);
    case LineComment(t) => LineCommentsAreForced(t, rest);
    case BlockComment(t) => BlockCommentsAreForced(t, rest);
  }

  lemma SegmentsGoOn(first: Segment, rest: string)
    requires first.Fits(rest)
    ensures first.Text() != "" && Segments(first.Text() + rest) == [first] + Segments(rest)
  {
    hide Segment.Fits, FirstSegment;
    FirstSegmentIsForced(first, rest);
    var t := first.Text();
    assert (t + rest)[|t|..] == rest;
  }

  /** There is only one way to cut a text into segments. */
  lemma {:induction false} SegmentationIsUnique(segments: seq<Segment>, text: string)
    requires IsSegmentation(segments, text)
    ensures segments == Segments(text)
  {
    hide Segment.Fits, Segment.Text, Segments, FirstSegment;
    if segments == [] {
      NoSegments();
    } else {
      SegmentsGoOn(segments[0], Flatten(segments[1..]));
      SegmentationIsUnique(segments[1..], Flatten(segments[1..]));
    }
  }

  lemma NoSegments()
    ensures Segments("") == []
  {
  }

  // ----- The stripper ------------------------------------------------------

  function Stripped(text: string): string {
    Flatten(Kept(Segments(text)))
  }

  lemma StrippedStep(text: string)
    requires text != ""
    ensures var first := FirstSegment(text);
            Stripped(text) == (if first.IsComment() then "" else first.Text()) + Stripped(text[|first.Text()|..])
  {
    var first := FirstSegment(text);
    var rest := Segments(text[|first.Text()|..]);
    assert Segments(text)[1..] == rest;
    assert ([first] + Kept(rest))[1..] == Kept(rest);
    assert [] + Kept(rest) == Kept(rest);
  }

  /** Where a literal ends that the scan has entered and followed up to `i`. */
  function ResumedLiteral(config: string, i: nat, escaped: bool): (end: nat)
    requires i <= |config|
    ensures i <= end <= |config|
  {
    if !escaped then i + LiteralReach(config[i..])
    else if i == |config| then i
    else i + 1 + LiteralReach(config[i + 1..])
  }

  /** What stripping does with the text from position `i` on. */
  lemma StripsAt(config: string, i: nat)
    requires i < |config|
    ensures Stripped(config[i..])
            == if config[i] == '\"' then
                 var end := ResumedLiteral(config, i + 1, false);
                 config[i..end] + Stripped(config[end..])
               else if OpensAt(config, i, '/') then Stripped(config[i + 2 + LineReach(config[i + 2..])..])
               else if OpensAt(config, i, '*') then Stripped(config[i + 2 + BlockReach(config[i + 2..])..])
               else [config[i]] + Stripped(config[i + 1..])
  {
    hide Stripped, LiteralReach, LineReach, BlockReach;
    var text := config[i..];
    var first := FirstSegment(text);
    var n := |first.Text()|;
    StrippedStep(text);
    assert text[n..] == config[i + n..] && text[..n] == config[i..i + n];
    if first.IsComment() {
      assert text[2..] == config[i + 2..];
      assert "" + Stripped(config[i + n..]) == Stripped(config[i + n..]);
    } else {
      assert text[1..] == config[i + 1..];
    }
  }

  predicate OpensAt(config: string, i: nat, second: char) {
    i + 1 < |config| && config[i] == '/' && config[i + 1] == second
  }

  lemma LiteralStep(config: string, i: nat, escaped: bool)
    requires i < |config|
    ensures i < ResumedLiteral(config, i, escaped) <= |config|
    ensures ResumedLiteral(config, i, escaped)
            == if !escaped && config[i] == '\"' then i + 1
               else ResumedLiteral(config, i + 1, !escaped && config[i] == '\\')
  {
    var rest := config[i..];
    assert rest[1..] == config[i + 1..];
    if |rest| >= 2 {
      assert rest[2..] == config[i + 2..];
    }
  }

  method SkipLine(config: string, i: nat) returns (next: nat, newline: string)
    requires i <= |config|
    ensures var end := i + LineReach(config[i..]);
            if end < |config| then next == end + 1 && newline == "\n" else next == end && newline == ""
  {
    next, newline := i, "";
    while next < |config|
      invariant i <= next <= |config|
      invariant next + LineReach(config[next..]) == i + LineReach(config[i..])
    {
      assert config[next..][1..] == config[next + 1..];
      next := next + 1;
      if config[next - 1] == '\n' {
        newline := "\n";
        return;
      }
    }
  }

  method SkipBlock(config: string, i: nat) returns (next: nat)
    requires i <= |config|
    ensures next == i + BlockReach(config[i..])
  {
    var previous := '\0';
    next := i;
    while next < |config|
      invariant i <= next <= |config|
      invariant if next == i then previous == '\0' else previous == config[next - 1]
      invariant next > i ==> next - 1 + BlockReach(config[next - 1..]) == i + BlockReach(config[i..])
    {
      if next > i {
        assert config[next - 1..][1..] == config[next..];
      }
      next := next + 1;
      if previous == '*' && config[next - 1] == '/' {
        return;
      }
      previous := config[next - 1];
    }
  }

  /** Stripping from `i` on completes what has been written. */
  ghost predicate Balanced(config: string, i: nat, stripped: string) {
    i <= |config| && stripped + Stripped(config[i..]) == Stripped(config)
  }

  /** The same inside a literal, which ends at `end`. */
  ghost predicate InLiteral(config: string, i: nat, escaped: bool, end: nat, stripped: string) {
    && i <= |config| && end == ResumedLiteral(config, i, escaped)
    && stripped + config[i..end] + Stripped(config[end..]) == Stripped(config)
  }

  lemma CodeIsKept(config: string, i: nat, stripped: string)
    requires Balanced(config, i, stripped) && i < |config| && config[i] != '\"'
    requires !OpensAt(config, i, '/') && !OpensAt(config, i, '*')
    ensures Balanced(config, i + 1, stripped + [config[i]])
  {
    hide Stripped;
    StripsAt(config, i);
  }

  lemma LiteralIsEntered(config: string, i: nat, stripped: string)
    requires Balanced(config, i, stripped) && i < |config| && config[i] == '\"'
    ensures InLiteral(config, i + 1, false, ResumedLiteral(config, i + 1, false), stripped + [config[i]])
  {
    hide Stripped, ResumedLiteral;
    StripsAt(config, i);
    var end := ResumedLiteral(config, i + 1, false);
    assert stripped + config[i..end] == (stripped + [config[i]]) + config[i + 1..end];
  }

  lemma LiteralIsFollowed(config: string, i: nat, escaped: bool, end: nat, stripped: string)
    requires InLiteral(config, i, escaped, end, stripped) && i < |config|
    ensures if !escaped && config[i] == '\"' then Balanced(config, i + 1, stripped + [config[i]])
            else InLiteral(config, i + 1, !escaped && config[i] == '\\', end, stripped + [config[i]])
  {
    hide Stripped, ResumedLiteral;
    LiteralStep(config, i, escaped);
    assert stripped + config[i..end] == (stripped + [config[i]]) + config[i + 1..end];
  }

  lemma LineIsDropped(config: string, i: nat, stripped: string)
    requires Balanced(config, i, stripped) && OpensAt(config, i, '/')
    ensures var end := i + 1 + LineReach(config[i + 1..]);
            if end < |config| then Balanced(config, end + 1, stripped + "\n") else Balanced(config, end, stripped)
  {
    hide Stripped;
    StripsAt(config, i);
    var end := i + 1 + LineReach(config[i + 1..]);
    assert config[i + 1..][1..] == config[i + 2..];
    if end < |config| {
      assert config[end] == config[i + 1..][end - i - 1] == '\n';
      StripsAt(config, end);
      assert stripped + ("\n" + Stripped(config[end + 1..])) == (stripped + "\n") + Stripped(config[end + 1..]);
    }
  }

  lemma BlockIsDropped(config: string, i: nat, stripped: string)
    requires Balanced(config, i, stripped) && OpensAt(config, i, '*')
    ensures Balanced(config, i + 2 + BlockReach(config[i + 2..]), stripped)
  {
    hide Stripped;
    StripsAt(config, i);
  }

  lemma NothingIsLeft(config: string, stripped: string)
    requires Balanced(config, |config|, stripped)
             || exists escaped, end :: InLiteral(config, |config|, escaped, end, stripped)
    ensures stripped == Stripped(config) == Flatten(Kept(Segments(config)))
  {
    assert Stripped(config[|config|..]) == "";
  }

  /** The scan over characters. What it returns is the kept segments of whatever segmentation
      the text has. */
  method StripJsoncComments(config: string) returns (stripped: string)
    ensures stripped == Stripped(config)
    ensures forall segments :: IsSegmentation(segments, config) ==> stripped == Flatten(Kept(segments))
  {
    hide Stripped, Segments, Flatten, Kept, IsSegmentation;
    hide LiteralReach, LineReach, BlockReach, Balanced, InLiteral;
    stripped := "";
    var inString, escaped, i := false, false, 0;
    ghost var end := 0;
    Unread(config);
    while i < |config|
      invariant i <= |config|
      invariant if inString then InLiteral(config, i, escaped, end, stripped)
                else !escaped && Balanced(config, i, stripped)
    {
      var character := config[i];
      i := i + 1;
      if inString {
        LiteralIsFollowed(config, i - 1, escaped, end, stripped);
        stripped := stripped + [character];
        if escaped {
          escaped := false;
        } else if character == '\\' {
          escaped := true;
        } else if character == '\"' {
          inString := false;
        }
        continue;
      }
      if character == '\"' {
        LiteralIsEntered(config, i - 1, stripped);
        end := ResumedLiteral(config, i, false);
        inString := true;
        stripped := stripped + [character];
        continue;
      }
      if character == '/' && i < |config| {
        if config[i] == '/' {
          LineIsDropped(config, i - 1, stripped);
          var newline;
          i, newline := SkipLine(config, i);
          assert stripped + "" == stripped;
          stripped := stripped + newline;
          continue;
        }
        if config[i] == '*' {
          BlockIsDropped(config, i - 1, stripped);
          i := SkipBlock(config, i + 1);
          continue;
        }
      }
      CodeIsKept(config, i - 1, stripped);
      stripped := stripped + [character];
    }
    NothingIsLeft(config, stripped);
    forall segments | IsSegmentation(segments, config) ensures stripped == Flatten(Kept(segments)) {
      SegmentationIsUnique(segments, config);
    }
  }

  lemma Unread(config: string)
    ensures Balanced(config, 0, "")
  {
    assert config[0..] == config;
  }

  // ----- What stripping keeps ----------------------------------------------

  lemma KeptStep(segments: seq<Segment>)
    requires segments != []
    ensures Kept(segments)
            == if segments[0].IsComment() then Kept(segments[1..]) else [segments[0]] + Kept(segments[1..])
    ensures Flatten(Kept(segments))
            == if segments[0].IsComment() then Flatten(Kept(segments[1..]))
               else segments[0].Text() + Flatten(Kept(segments[1..]))
  {
    if !segments[0].IsComment() {
      assert Kept(segments)[1..] == Kept(segments[1..]);
    }
  }

  lemma FitsWithoutComments(first: Segment, tail: seq<Segment>)
    requires !first.IsComment() && first.Fits(Flatten(tail)) && WellFormed(tail)
    ensures first.Fits(Flatten(Kept(tail)))
  {
    hide IsClosedLiteral, IsOpenLiteral, IsLineComment, IsClosedBlock, IsOpenBlock;
    if tail != [] {
      FirstCharacter(tail, Flatten(tail[1..]));
      if !tail[0].IsComment() {
        FirstCharacter(Kept(tail), Flatten(tail[1..]));
      }
    }
  }

  /** The character a well-formed row begins with tells a comment or a slash from the rest. */
  lemma FirstCharacter(segments: seq<Segment>, rest: string)
    requires segments != [] && segments[0].Fits(rest)
    ensures Flatten(segments) != "" && Flatten(segments)[0] == segments[0].Text()[0]
    ensures segments[0].IsComment() ==> Flatten(segments)[0] == '/'
    ensures Flatten(segments)[0] == '\n' <==> segments[0] == Code('\n')
  {
  }

  /** Taking the comments out of a well-formed row leaves a well-formed row: what they stood
      between can not come together as a new comment. */
  lemma {:induction false} KeptIsWellFormed(segments: seq<Segment>)
    requires WellFormed(segments)
    ensures WellFormed(Kept(segments))
  {
    if segments != [] {
      hide Segment.Fits;
      KeptStep(segments);
      KeptIsWellFormed(segments[1..]);
      if !segments[0].IsComment() {
        FitsWithoutComments(segments[0], segments[1..]);
      }
    }
  }

  /** The stripped text has the code and the literals of the original, verbatim and in order,
      and no comment is left or comes about in it. */
  lemma StrippedSegments(text: string)
    ensures Segments(Stripped(text)) == Kept(Segments(text))
    ensures forall i :: 0 <= i < |Segments(Stripped(text))| ==> !Segments(Stripped(text))[i].IsComment()
  {
    SegmentsSegment(text);
    KeptIsWellFormed(Segments(text));
    SegmentationIsUnique(Kept(Segments(text)), Stripped(text));
  }

  lemma {:induction false} KeptKeepsAll(segments: seq<Segment>)
    requires forall i :: 0 <= i < |segments| ==> !segments[i].IsComment()
    ensures Kept(segments) == segments
  {
    if segments != [] {
      KeptKeepsAll(segments[1..]);
    }
  }

  lemma StrippingIsIdempotent(text: string)
    ensures Stripped(Stripped(text)) == Stripped(text)
  {
    StrippedSegments(text);
    KeptKeepsAll(Kept(Segments(text)));
  }

  lemma {:induction false} CommentsTakeRoom(segments: seq<Segment>)
    requires WellFormed(segments)
    ensures |Flatten(Kept(segments))| <= |Flatten(segments)|
    ensures |Flatten(Kept(segments))| == |Flatten(segments)| ==>
              forall i :: 0 <= i < |segments| ==> !segments[i].IsComment()
  {
    if segments != [] {
      CommentsTakeRoom(segments[1..]);
      KeptStep(segments);
      FirstCharacter(segments, Flatten(segments[1..]));
      assert segments == [segments[0]] + segments[1..];
    }
  }

  /** Stripping is the identity on comment-free texts and on no other. */
  lemma UntouchedIffCommentFree(text: string)
    ensures Stripped(text) == text <==>
            forall i :: 0 <= i < |Segments(text)| ==> !Segments(text)[i].IsComment()
  {
    hide Segments, WellFormed;
    var segments := Segments(text);
    SegmentsSegment(text);
    assert Flatten(segments) == text;
    if Stripped(text) == text {
      CommentsTakeRoom(segments);
    } else if forall i :: 0 <= i < |segments| ==> !segments[i].IsComment() {
      KeptKeepsAll(segments);
      assert false;
    }
  }

  // ----- Line numbers ------------------------------------------------------

  function Newlines(text: string): nat {
    if text == "" then 0 else (if text[0] == '\n' then 1 else 0) + Newlines(text[1..])
  }

  lemma OneNewline(c: char)
    ensures Newlines([c]) == if c == '\n' then 1 else 0
  {
    assert [c][1..] == "";
  }

  lemma {:induction false} NewlinesAdd(a: string, b: string)
    ensures Newlines(a + b) == Newlines(a) + Newlines(b)
  {
    if a == "" {
      assert a + b == b;
    } else {
      NewlinesAdd(a[1..], b);
      assert (a + b)[1..] == a[1..] + b;
    }
  }

  lemma {:induction false} NoNewlines(text: string)
    ensures Newlines(text) == 0 <==> '\n' !in text
  {
    if text != "" {
      NoNewlines(text[1..]);
      assert text == [text[0]] + text[1..];
    }
  }

  /** The newlines inside block comments. */
  function BlockNewlines(segments: seq<Segment>): nat {
    if segments == [] then 0
    else (if segments[0].BlockComment? then Newlines(segments[0].text) else 0) + BlockNewlines(segments[1..])
  }

  lemma {:induction false} KeptNewlines(segments: seq<Segment>, n: nat)
    requires WellFormed(segments) && n <= |segments|
    ensures Newlines(Flatten(segments[..n])) == Newlines(Flatten(Kept(segments[..n]))) + BlockNewlines(segments[..n])
  {
    if n > 0 {
      hide Segment.Fits, Segment.Text, Kept, Newlines, BlockNewlines;
      LineCommentsHoldNoNewline(segments[0], Flatten(segments[1..]));
      KeptNewlines(segments[1..], n - 1);
      assert segments[..n][1..] == segments[1..][..n - 1];
      FirstKeptNewlines(segments[..n]);
    }
  }

  lemma FirstKeptNewlines(segments: seq<Segment>)
    requires segments != [] && (segments[0].LineComment? ==> Newlines(segments[0].text) == 0)
    requires Newlines(Flatten(segments[1..])) == Newlines(Flatten(Kept(segments[1..]))) + BlockNewlines(segments[1..])
    ensures Newlines(Flatten(segments)) == Newlines(Flatten(Kept(segments))) + BlockNewlines(segments)
  {
    hide Newlines, Kept;
    KeptStep(segments);
    NewlinesAdd(segments[0].Text(), Flatten(segments[1..]));
    NewlinesAdd(segments[0].Text(), Flatten(Kept(segments[1..])));
  }

  lemma LineCommentsHoldNoNewline(first: Segment, rest: string)
    requires first.Fits(rest)
    ensures first.LineComment? ==> Newlines(first.text) == 0
  {
    NoNewlines(first.Text());
  }

  /** Stripping moves the text after any number of segments up by exactly the newlines of the
      block comments among them. */
  lemma LineNumbersShift(text: string, n: nat)
    requires n <= |Segments(text)|
    ensures var segments := Segments(text)[..n];
            Newlines(Flatten(segments)) - Newlines(Flatten(Kept(segments))) == BlockNewlines(segments)
  {
    SegmentsSegment(text);
    KeptNewlines(Segments(text), n);
  }

  lemma {:induction false} NoBlockNewlines(segments: seq<Segment>)
    ensures BlockNewlines(segments) == 0 <==>
            forall i :: 0 <= i < |segments| && segments[i].BlockComment? ==> '\n' !in segments[i].text
  {
    if segments != [] {
      NoBlockNewlines(segments[1..]);
      NoNewlines(segments[0].Text());
      assert segments == [segments[0]] + segments[1..];
    }
  }

  /** The line count survives exactly when no block comment spans lines. */
  lemma LinesSurviveIff(text: string)
    ensures Newlines(Stripped(text)) == Newlines(text) <==>
            forall i :: 0 <= i < |Segments(text)| && Segments(text)[i].BlockComment? ==>
              '\n' !in Segments(text)[i].text
  {
    hide Segments, WellFormed;
    var segments := Segments(text);
    assert segments[..|segments|] == segments;
    SegmentsSegment(text);
    KeptNewlines(segments, |segments|);
    NoBlockNewlines(segments);
    assert Newlines(text) == Newlines(Flatten(segments));
    assert Newlines(Stripped(text)) == Newlines(Flatten(Kept(segments)));
  }

  /** A block comment over several lines, in front of any text: it is gone, and so are its
      newlines. */
  lemma BlockCommentMovesLines(comment: string, rest: string)
    requires IsClosedBlock(comment) && '\n' in comment
    ensures Stripped(comment + rest) == Stripped(rest)
    ensures Newlines(Stripped(comment + rest)) < Newlines(comment + rest)
  {
    hide Segments, IsClosedBlock;
    var text, first := comment + rest, BlockComment(comment);
    SegmentsGoOn(first, rest);
    assert Segments(text)[0] == first && Segments(text)[1..] == Segments(rest);
    KeptStep(Segments(text));
    LineNumbersShift(text, |Segments(text)|);
    assert Segments(text)[..|Segments(text)|] == Segments(text);
    SegmentsSegment(text);
    assert Newlines(text) == Newlines(Flatten(Segments(text)));
    NoNewlines(comment);
  }

  /** The shortest such text. */
  lemma TwoLineComment()
    ensures IsClosedBlock("/*\n*/") && '\n' in "/*\n*/"
    ensures forall rest :: Newlines(Stripped("/*\n*/" + rest)) < Newlines("/*\n*/" + rest)
  {
    var comment := "/*\n*/";
    assert comment[2] == '\n' && comment[0] == '/' && comment[1] == '*' && comment[3] == '*' && comment[4] == '/';
    assert ClosesAt(comment, 3) && !ClosesAt(comment, 2);
    forall rest ensures Newlines(Stripped(comment + rest)) < Newlines(comment + rest) {
      BlockCommentMovesLines(comment, rest);
    }
  }

  // ----- Inserting comments ------------------------------------------------

  /** Whether the comment at `i`, if it is one, stands where it is read as a comment: not
      directly after a slash, not inside a literal, a line comment at the end of its line. */
  predicate PlacedAt(segments: seq<Segment>, i: nat)
    requires i < |segments|
  {
    segments[i].IsComment() ==>
      && (i > 0 ==> FreeAfter(segments[i - 1]))
      && match segments[i]
         case LineComment(t) => IsLineComment(t) && (i + 1 < |segments| ==> segments[i + 1] == Code('\n'))
         case BlockComment(t) => IsClosedBlock(t) || (i + 1 == |segments| && IsOpenBlock(t))
         case _ => true
  }

  predicate FreeAfter(before: Segment) {
    before != Code('/') && (before.Literal? ==> IsClosedLiteral(before.text))
  }

  predicate Placed(segments: seq<Segment>) {
    forall i :: 0 <= i < |segments| ==> PlacedAt(segments, i)
  }

  lemma {:induction false} PlacedIffWellFormed(segments: seq<Segment>)
    requires WellFormed(Kept(segments))
    ensures WellFormed(segments) <==> Placed(segments)
  {
    if segments != [] {
      hide Segment.Fits;
      var first, tail := segments[0], segments[1..];
      KeptStep(segments);
      PlacedIffWellFormed(tail);
      PlacedOneByOne(segments);
      if Placed(tail) {
        FirstIsPlacedIff(segments);
      }
    }
  }

  /** What the first segment adds to the placing of the rest. */
  predicate FirstIsPlaced(segments: seq<Segment>)
    requires segments != []
  {
    && PlacedAt(segments, 0)
    && (|segments| > 1 && segments[1].IsComment() ==> FreeAfter(segments[0]))
  }

  lemma PlacedOneByOne(segments: seq<Segment>)
    requires segments != []
    ensures Placed(segments) <==> FirstIsPlaced(segments) && Placed(segments[1..])
  {
    hide IsClosedLiteral, IsOpenLiteral, IsLineComment, IsClosedBlock, IsOpenBlock;
    var tail := segments[1..];
    if |segments| > 1 {
      assert PlacedAt(segments, 1) <==>
             PlacedAt(tail, 0) && (segments[1].IsComment() ==> FreeAfter(segments[0]));
    }
    assert forall i :: 1 <= i < |tail| ==> PlacedAt(tail, i) == PlacedAt(segments, i + 1);
    if FirstIsPlaced(segments) && Placed(tail) {
      forall i | 0 <= i < |segments| ensures PlacedAt(segments, i) {
        if i > 1 {
          assert PlacedAt(tail, i - 1) == PlacedAt(segments, i);
        }
      }
    }
    if Placed(segments) {
      forall i | 0 <= i < |tail| ensures PlacedAt(tail, i) {
        assert PlacedAt(segments, i + 1);
      }
    }
  }

  lemma FirstIsPlacedIff(segments: seq<Segment>)
    requires segments != [] && WellFormed(Kept(segments)) && WellFormed(segments[1..])
    ensures segments[0].Fits(Flatten(segments[1..])) <==> FirstIsPlaced(segments)
  {
    hide IsClosedLiteral, IsOpenLiteral, IsLineComment, IsClosedBlock, IsOpenBlock;
    var first, tail := segments[0], segments[1..];
    KeptStep(segments);
    if tail != [] {
      FirstCharacter(tail, Flatten(tail[1..]));
      if !tail[0].IsComment() {
        FirstCharacter(Kept(tail), Flatten(tail[1..]));
      }
    }
  }

  /** Put block comments anywhere outside literals but directly after a slash, and line
      comments before newlines under the same condition: stripping gives the text back. And
      only there does a comment read as one. */
  lemma InsertedCommentsAreStripped(segments: seq<Segment>, original: string)
    requires IsSegmentation(Kept(segments), original)
    ensures Placed(segments) ==> Stripped(Flatten(segments)) == original
    ensures Placed(segments) <==> Segments(Flatten(segments)) == segments
  {
    PlacedIffWellFormed(segments);
    if Placed(segments) {
      SegmentationIsUnique(segments, Flatten(segments));
    } else if Segments(Flatten(segments)) == segments {
      SegmentsSegment(Flatten(segments));
      assert false;
    }
  }
}
