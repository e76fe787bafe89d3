/**
 Closing a JSON text that was cut off (`completeTruncatedJSON` in
 `internal/textutil/textutil.go`). Characters stand for bytes; bytes of longer characters are
 never special to the scanner.
 */
module TruncatedJson {

  /** Where a scan is: the closers still owed, the innermost last, and whether it is inside a string. */
  datatype Scan = Scan(closers: string, inString: bool, escaped: bool)

  const OUTSIDE := Scan("", false, false)

  function Step(s: Scan, ch: char): Scan {
    if s.inString then
      if s.escaped then s.(escaped := false)
      else if ch == '\\' then s.(escaped := true)
      else if ch == '"' then s.(inString := false)
      else s
    else if ch == '"' then s.(inString := true)
    else if ch == '{' then s.(closers := s.closers + "}")
    else if ch == '[' then s.(closers := s.closers + "]")
    else if ch in "}]" && s.closers != "" then s.(closers := s.closers[..|s.closers| - 1])
    else s
  }

  function ScanFrom(s: Scan, text: string): Scan {
    if text == "" then s else Step(ScanFrom(s, text[..|text| - 1]), text[|text| - 1])
  }

  /** Outside strings a closing bracket must be the one that is owed. */
  predicate Fits(s: Scan, ch: char) {
    !s.inString && ch in "}]" ==> s.closers != "" && s.closers[|s.closers| - 1] == ch
  }

  /** Every closing bracket fits. The scanner itself does not check this. */
  predicate FitsFrom(s: Scan, text: string) {
    text == "" || (FitsFrom(s, text[..|text| - 1]) && Fits(ScanFrom(s, text[..|text| - 1]), text[|text| - 1]))
  }

  predicate Closed(text: string) {
    ScanFrom(OUTSIDE, text) == OUTSIDE
  }

  predicate WellNested(text: string) {
    Closed(text) && FitsFrom(OUTSIDE, text)
  }

  // ---- completing ----------------------------------------------------------------------

  predicate IsBlank(ch: char) {
    ch in " \t\r\n"
  }

  function TrimBlanks(text: string): string {
    if text != "" && IsBlank(text[|text| - 1]) then TrimBlanks(text[..|text| - 1]) else text
  }

  function DropComma(text: string): string {
    if text != "" && text[|text| - 1] == ',' then text[..|text| - 1] else text
  }

  function Reversed(s: string): string {
    if s == "" then "" else [s[|s| - 1]] + Reversed(s[..|s| - 1])
  }

  /** The text with its last string closed; a dangling escape is dropped. */
  function StringClosed(text: string, s: Scan): string {
    if !s.inString then text
    else (if s.escaped && text != "" then text[..|text| - 1] else text) + "\""
  }

  function Completed(text: string): string {
    var s := ScanFrom(OUTSIDE, text);
    if s.closers == "" && !s.inString then text
    else DropComma(TrimBlanks(StringClosed(text, s))) + Reversed(s.closers)
  }

  method CompleteTruncatedJSON(text: string) returns (completed: string)
    ensures completed == Completed(text)
  {
    var closers, inString, escaped := "", false, false;
    for i := 0 to |text|
      invariant ScanFrom(OUTSIDE, text[..i]) == Scan(closers, inString, escaped)
    {
      var ch := text[i];
      assert text[..i + 1][..i] == text[..i];
      if inString {
        if escaped {
          escaped := false;
        } else if ch == '\\' {
          escaped := true;
        } else if ch == '"' {
          inString := false;
        }
      } else {
        if ch == '"' {
          inString := true;
        } else if ch == '{' {
          closers := closers + "}";
        } else if ch == '[' {
          closers := closers + "]";
        } else if ch == '}' || ch == ']' {
          if |closers| > 0 {
            closers := closers[..|closers| - 1];
          }
        }
      }
    }
    assert text[..|text|] == text;
    if |closers| == 0 && !inString {
      return text;
    }
    EscapeDangles(text);
    completed := text;
    if inString {
      if escaped {
        completed := completed[..|completed| - 1];
      }
      completed := completed + "\"";
    }
    completed := TrimmedRight(completed);
    if completed != "" && completed[|completed| - 1] == ',' {
      completed := completed[..|completed| - 1];
    }
    completed := WithClosers(completed, closers);
  }

  method WithClosers(body: string, closers: string) returns (completed: string)
    ensures completed == body + Reversed(closers)
  {
    completed := body;
    assert closers[..|closers|] == closers;
    for i := |closers| downto 0
      invariant completed + Reversed(closers[..i]) == body + Reversed(closers)
    {
      assert closers[..i + 1][..i] == closers[..i];
      completed := completed + [closers[i]];
    }
  }

  method TrimmedRight(text: string) returns (r: string)
    ensures r == TrimBlanks(text)
  {
    r := text;
    while r != "" && IsBlank(r[|r| - 1])
      invariant TrimBlanks(r) == TrimBlanks(text)
      decreases |r|
    {
      r := r[..|r| - 1];
    }
  }

  // ---- scanning ------------------------------------------------------------------------------

  lemma ScanAppend(s: Scan, text: string, ch: char)
    ensures ScanFrom(s, text + [ch]) == Step(ScanFrom(s, text), ch)
    ensures FitsFrom(s, text + [ch]) <==> FitsFrom(s, text) && Fits(ScanFrom(s, text), ch)
  {
    assert (text + [ch])[..|text|] == text;
  }

  lemma {:induction false} ScanConcat(s: Scan, a: string, b: string)
    ensures ScanFrom(s, a + b) == ScanFrom(ScanFrom(s, a), b)
    ensures FitsFrom(s, a + b) <==> FitsFrom(s, a) && FitsFrom(ScanFrom(s, a), b)
    decreases |b|
  {
    if b == "" {
      assert a + b == a;
    } else {
      var n := |b| - 1;
      assert a + b == (a + b[..n]) + [b[n]];
      ScanAppend(s, a + b[..n], b[n]);
      ScanConcat(s, a, b[..n]);
    }
  }

  /** An escape is only open inside a string, right after its backslash. */
  lemma {:induction false} EscapeDangles(text: string)
    ensures var s := ScanFrom(OUTSIDE, text);
      s.escaped ==> s.inString && text != "" && text[|text| - 1] == '\\'
                    && ScanFrom(OUTSIDE, text[..|text| - 1]) == s.(escaped := false)
  {
    if text != "" {
      EscapeDangles(text[..|text| - 1]);
    }
  }

  predicate Negligible(ch: char) {
    IsBlank(ch) || ch == ','
  }

  /** Blanks and commas at the end, outside a string, leave the scan as it was. */
  lemma LastIsNegligible(text: string)
    requires text != "" && Negligible(text[|text| - 1]) && !ScanFrom(OUTSIDE, text).inString
    ensures ScanFrom(OUTSIDE, text[..|text| - 1]) == ScanFrom(OUTSIDE, text)
    ensures FitsFrom(OUTSIDE, text[..|text| - 1]) <==> FitsFrom(OUTSIDE, text)
  {
    NegligibleStep(ScanFrom(OUTSIDE, text[..|text| - 1]), text[|text| - 1]);
  }

  lemma NegligibleStep(s: Scan, ch: char)
    requires Negligible(ch)
    ensures Step(s, ch).inString <==> s.inString
    ensures !s.inString ==> Step(s, ch) == s && Fits(s, ch)
  {
    assert ch == ' ' || ch == '\t' || ch == '\r' || ch == '\n' || ch == ',';
  }

  lemma {:induction false} TrimKeepsScan(text: string)
    requires !ScanFrom(OUTSIDE, text).inString
    ensures ScanFrom(OUTSIDE, TrimBlanks(text)) == ScanFrom(OUTSIDE, text)
    ensures FitsFrom(OUTSIDE, TrimBlanks(text)) <==> FitsFrom(OUTSIDE, text)
  {
    if text != "" && IsBlank(text[|text| - 1]) {
      LastIsNegligible(text);
      TrimKeepsScan(text[..|text| - 1]);
    }
  }

  lemma CommaKeepsScan(text: string)
    requires !ScanFrom(OUTSIDE, text).inString
    ensures ScanFrom(OUTSIDE, DropComma(text)) == ScanFrom(OUTSIDE, text)
    ensures FitsFrom(OUTSIDE, DropComma(text)) <==> FitsFrom(OUTSIDE, text)
  {
    if DropComma(text) != text {
      LastIsNegligible(text);
    }
  }

  lemma ClosingString(text: string)
    ensures var s := ScanFrom(OUTSIDE, text);
      && ScanFrom(OUTSIDE, StringClosed(text, s)) == Scan(s.closers, false, false)
      && (FitsFrom(OUTSIDE, StringClosed(text, s)) <==> FitsFrom(OUTSIDE, text))
  {
    var s := ScanFrom(OUTSIDE, text);
    EscapeDangles(text);
    if s.inString {
      ScanAppend(OUTSIDE, if s.escaped then text[..|text| - 1] else text, '"');
    }
  }

  predicate AreClosers(s: string) {
    forall i :: 0 <= i < |s| ==> s[i] in "}]"
  }

  lemma {:induction false} OwedAreClosers(text: string)
    ensures AreClosers(ScanFrom(OUTSIDE, text).closers)
  {
    if text != "" {
      OwedAreClosers(text[..|text| - 1]);
    }
  }

  /** Writing the owed closers, innermost first, pays them all. */
  lemma {:induction false} PayingClosers(closers: string)
    requires AreClosers(closers)
    ensures ScanFrom(Scan(closers, false, false), Reversed(closers)) == OUTSIDE
    ensures FitsFrom(Scan(closers, false, false), Reversed(closers))
  {
    if closers != "" {
      var n := |closers| - 1;
      PayingClosers(closers[..n]);
      PayingOne(closers[..n], closers[n]);
      assert closers == closers[..n] + [closers[n]];
      ScanConcat(Scan(closers, false, false), [closers[n]], Reversed(closers[..n]));
    }
  }

  lemma PayingOne(closers: string, ch: char)
    requires ch in "}]"
    ensures ScanFrom(Scan(closers + [ch], false, false), [ch]) == Scan(closers, false, false)
    ensures FitsFrom(Scan(closers + [ch], false, false), [ch])
  {
    ScanAppend(Scan(closers + [ch], false, false), "", ch);
    assert "" + [ch] == [ch];
  }

  // ---- what completing promises ------------------------------------------------------------------

  lemma CompletedScan(text: string)
    ensures Closed(Completed(text))
    ensures FitsFrom(OUTSIDE, Completed(text)) <==> FitsFrom(OUTSIDE, text)
  {
    var s := ScanFrom(OUTSIDE, text);
    EscapeDangles(text);
    if s.closers != "" || s.inString {
      var closed := StringClosed(text, s);
      ClosingString(text);
      TrimKeepsScan(closed);
      CommaKeepsScan(TrimBlanks(closed));
      OwedAreClosers(text);
      PayingClosers(s.closers);
      ScanConcat(OUTSIDE, DropComma(TrimBlanks(closed)), Reversed(s.closers));
    }
  }

  /** Whatever the text, the result leaves nothing open, no string either; and completing again changes nothing. */
  lemma CompletedIsClosed(text: string)
    ensures Closed(Completed(text))
    ensures Completed(Completed(text)) == Completed(text)
  {
    CompletedScan(text);
  }

  /**
   The result is well nested, brackets of one kind facing each other, exactly when no bracket
   of the text is wrong.
   */
  lemma CompletedIsWellNestedIff(text: string)
    ensures WellNested(Completed(text)) <==> FitsFrom(OUTSIDE, text)
  {
    CompletedScan(text);
  }

  lemma CutFits(text: string, k: nat)
    requires k <= |text| && FitsFrom(OUTSIDE, text)
    ensures FitsFrom(OUTSIDE, text[..k])
  {
    assert text == text[..k] + text[k..];
    ScanConcat(OUTSIDE, text[..k], text[k..]);
  }

  /** Every cut of a well-nested text, in a string, after an escape or a comma, completes to a well-nested one. */
  lemma EveryCutCompletes(text: string, k: nat)
    requires k <= |text| && WellNested(text)
    ensures WellNested(Completed(text[..k]))
  {
    CutFits(text, k);
    CompletedIsWellNestedIff(text[..k]);
  }

  /** Completing only cuts blanks, one comma, and a dangling escape off the end. */
  lemma CompletedKeepsText(text: string) returns (kept: nat)
    ensures kept <= |text| && text[..kept] <= Completed(text)
    ensures forall i :: kept <= i < |text| ==>
              Negligible(text[i]) || (i == |text| - 1 && text[i] == '\\' && ScanFrom(OUTSIDE, text).escaped)
  {
    var s := ScanFrom(OUTSIDE, text);
    EscapeDangles(text);
    if s.inString {
      kept := if s.escaped then |text| - 1 else |text|;
      assert TrimBlanks(StringClosed(text, s)) == StringClosed(text, s);
    } else {
      TrimIsPrefix(text);
      kept := |DropComma(TrimBlanks(text))|;
    }
  }

  lemma {:induction false} TrimIsPrefix(text: string)
    ensures TrimBlanks(text) <= text
    ensures forall i :: |TrimBlanks(text)| <= i < |text| ==> IsBlank(text[i])
  {
    if text != "" && IsBlank(text[|text| - 1]) {
      TrimIsPrefix(text[..|text| - 1]);
    }
  }

  // ---- what exactly is cut and written -----------------------------------------------------------

  /** Closers are written innermost first: the last one owed comes first. */
  lemma {:induction false} ReversedAt(s: string, i: nat)
    requires i < |s|
    ensures |Reversed(s)| == |s| && Reversed(s)[i] == s[|s| - 1 - i]
  {
    var n := |s| - 1;
    if i > 0 {
      ReversedAt(s[..n], i - 1);
    } else if n > 0 {
      ReversedAt(s[..n], 0);
    }
  }

  lemma {:induction false} BlanksAreTrimmed(text: string, blanks: string)
    requires forall i :: 0 <= i < |blanks| ==> blanks[i] in {' ', '\t', '\r', '\n'}
    requires text == "" || text[|text| - 1] !in {' ', '\t', '\r', '\n'}
    ensures TrimBlanks(text + blanks) == text
    decreases |blanks|
  {
    if blanks == "" {
      assert text + blanks == text;
    } else {
      assert (text + blanks)[..|text + blanks| - 1] == text + blanks[..|blanks| - 1];
      assert (text + blanks)[|text + blanks| - 1] == blanks[|blanks| - 1];
      BlanksAreTrimmed(text, blanks[..|blanks| - 1]);
    }
  }

  /** A comma at the end goes, with the blanks behind it and nothing else; then come the closers. */
  lemma CommaIsCut(body: string, blanks: string)
    requires forall i :: 0 <= i < |blanks| ==> blanks[i] in {' ', '\t', '\r', '\n'}
    requires var s := ScanFrom(OUTSIDE, body + "," + blanks); !s.inString && s.closers != ""
    ensures Completed(body + "," + blanks) == body + Reversed(ScanFrom(OUTSIDE, body + "," + blanks).closers)
  {
    BlanksAreTrimmed(body + ",", blanks);
    assert (body + ",")[..|body|] == body;
  }

  /** Without a comma only the blanks at the end go. */
  lemma OnlyBlanksAreCut(body: string, blanks: string)
    requires forall i :: 0 <= i < |blanks| ==> blanks[i] in {' ', '\t', '\r', '\n'}
    requires body == "" || body[|body| - 1] !in {' ', '\t', '\r', '\n', ','}
    requires var s := ScanFrom(OUTSIDE, body + blanks); !s.inString && s.closers != ""
    ensures Completed(body + blanks) == body + Reversed(ScanFrom(OUTSIDE, body + blanks).closers)
  {
    BlanksAreTrimmed(body, blanks);
  }

  lemma QuoteIsKept(text: string)
    ensures DropComma(TrimBlanks(text + "\"")) == text + "\""
  {
    assert (text + "\"")[|text|] == '"';
  }

  /** An open string is closed as it stands. */
  lemma OpenStringIsClosed(text: string)
    requires ScanFrom(OUTSIDE, text).inString && !ScanFrom(OUTSIDE, text).escaped
    ensures Completed(text) == text + "\"" + Reversed(ScanFrom(OUTSIDE, text).closers)
  {
    QuoteIsKept(text);
  }

  /** An escape that has nothing to escape is taken back first. */
  lemma DanglingEscapeGoes(text: string)
    requires ScanFrom(OUTSIDE, text).inString && ScanFrom(OUTSIDE, text).escaped
    ensures text != "" && text[|text| - 1] == '\\'
    ensures Completed(text) == text[..|text| - 1] + "\"" + Reversed(ScanFrom(OUTSIDE, text).closers)
  {
    EscapeDangles(text);
    QuoteIsKept(text[..|text| - 1]);
  }

  /** Where nothing is owed the text stays as it is. */
  lemma ClosedTextStays(text: string)
    requires ScanFrom(OUTSIDE, text).closers == "" && !ScanFrom(OUTSIDE, text).inString
    ensures Completed(text) == text
  {
  }

  // ---- the object in a text -------------------------------------------------------------------------

  function FirstOf(text: string, ch: char): int
    ensures -1 <= FirstOf(text, ch) < |text|
  {
    if text == "" then -1
    else if text[0] == ch then 0
    else
      var rest := FirstOf(text[1..], ch);
      if rest == -1 then -1 else rest + 1
  }

  function LastOf(text: string, ch: char): (r: int)
    ensures -1 <= r < |text|
    ensures r >= 0 ==> text[r] == ch
  {
    if text == "" then -1
    else if text[|text| - 1] == ch then |text| - 1
    else LastOf(text[..|text| - 1], ch)
  }

  /** Where the object is that `DecodeJSONObject` decodes: from the first `{` to the last `}`, if in this order. */
  function SliceStart(text: string): (a: nat)
    ensures a <= SliceEnd(text)
  {
    if 0 <= FirstOf(text, '{') <= LastOf(text, '}') then FirstOf(text, '{') else 0
  }

  function SliceEnd(text: string): (b: nat)
    ensures b <= |text|
  {
    if 0 <= FirstOf(text, '{') <= LastOf(text, '}') then LastOf(text, '}') + 1 else |text|
  }

  function ObjectSlice(text: string): string {
    text[SliceStart(text)..SliceEnd(text)]
  }

  /** Nothing that was open at `a` is closed before `b`. */
  ghost predicate StaysOpen(text: string, a: nat, b: nat)
    requires a <= b <= |text|
  {
    forall i :: a <= i <= b ==> |ScanFrom(OUTSIDE, text[..a]).closers| <= |ScanFrom(OUTSIDE, text[..i]).closers|
  }

  /** What is owed from before lies under what is owed by the text itself. */
  function Under(owed: string, s: Scan): Scan {
    s.(closers := owed + s.closers)
  }

  lemma StepAbove(owed: string, s: Scan, ch: char)
    requires Fits(s, ch)
    ensures Step(Under(owed, s), ch) == Under(owed, Step(s, ch))
  {
    var both := owed + s.closers;
    assert s.closers != "" ==> both[..|both| - 1] == owed + s.closers[..|s.closers| - 1];
    assert both + "}" == owed + (s.closers + "}") && both + "]" == owed + (s.closers + "]");
  }

  /** A text that fits by itself never touches what is owed from before. */
  lemma {:induction false} FittingStaysAbove(owed: string, text: string)
    requires FitsFrom(OUTSIDE, text)
    ensures ScanFrom(Scan(owed, false, false), text) == Under(owed, ScanFrom(OUTSIDE, text))
  {
    if text == "" {
      assert owed + "" == owed;
    } else {
      FittingStaysAbove(owed, text[..|text| - 1]);
      StepAbove(owed, ScanFrom(OUTSIDE, text[..|text| - 1]), text[|text| - 1]);
    }
  }

  /** A text that fits on top of what is owed from before, and never pays any of it, fits by itself. */
  lemma {:induction false} AboveFits(owed: string, text: string)
    requires FitsFrom(Scan(owed, false, false), text)
    requires forall i :: 0 <= i <= |text| ==> |owed| <= |ScanFrom(Scan(owed, false, false), text[..i]).closers|
    ensures FitsFrom(OUTSIDE, text)
  {
    if text != "" {
      var n := |text| - 1;
      forall i | 0 <= i <= n ensures text[..n][..i] == text[..i] {
      }
      AboveFits(owed, text[..n]);
      FittingStaysAbove(owed, text[..n]);
      assert text[..|text|] == text;
    }
  }

  lemma SliceScan(text: string, a: nat, i: nat)
    requires a <= i <= |text| && FitsFrom(OUTSIDE, text)
    ensures ScanFrom(OUTSIDE, text[..i]) == ScanFrom(ScanFrom(OUTSIDE, text[..a]), text[a..i])
    ensures FitsFrom(ScanFrom(OUTSIDE, text[..a]), text[a..i])
  {
    CutFits(text, i);
    assert text[..i] == text[..a] + text[a..i];
    ScanConcat(OUTSIDE, text[..a], text[a..i]);
  }

  lemma FittingPieceStaysOpen(text: string, a: nat, b: nat, i: nat)
    requires a <= i <= b <= |text| && FitsFrom(OUTSIDE, text) && !ScanFrom(OUTSIDE, text[..a]).inString
    requires FitsFrom(OUTSIDE, text[a..b])
    ensures |ScanFrom(OUTSIDE, text[..a]).closers| <= |ScanFrom(OUTSIDE, text[..i]).closers|
  {
    EscapeDangles(text[..a]);
    SliceScan(text, a, i);
    CutFits(text[a..b], i - a);
    assert text[a..b][..i - a] == text[a..i];
    FittingStaysAbove(ScanFrom(OUTSIDE, text[..a]).closers, text[a..i]);
  }

  lemma PieceOwes(text: string, a: nat, b: nat, i: nat)
    requires a <= b <= |text| && FitsFrom(OUTSIDE, text) && i <= b - a && StaysOpen(text, a, b)
    ensures |ScanFrom(OUTSIDE, text[..a]).closers|
            <= |ScanFrom(ScanFrom(OUTSIDE, text[..a]), text[a..b][..i]).closers|
  {
    assert text[a..b][..i] == text[a..a + i];
    SliceScan(text, a, a + i);
  }

  lemma OpenPieceFits(text: string, a: nat, b: nat)
    requires a <= b <= |text| && FitsFrom(OUTSIDE, text) && !ScanFrom(OUTSIDE, text[..a]).inString
    requires StaysOpen(text, a, b)
    ensures FitsFrom(OUTSIDE, text[a..b])
  {
    var s := ScanFrom(OUTSIDE, text[..a]);
    EscapeDangles(text[..a]);
    SliceScan(text, a, b);
    forall i | 0 <= i <= b - a ensures |s.closers| <= |ScanFrom(s, text[a..b][..i]).closers| {
      PieceOwes(text, a, b, i);
    }
    AboveFits(s.closers, text[a..b]);
  }

  /** A piece of a text whose brackets fit has brackets that fit exactly when it closes nothing opened before it. */
  lemma PieceFitsIff(text: string, a: nat, b: nat)
    requires a <= b <= |text| && FitsFrom(OUTSIDE, text) && !ScanFrom(OUTSIDE, text[..a]).inString
    ensures FitsFrom(OUTSIDE, text[a..b]) <==> StaysOpen(text, a, b)
  {
    if FitsFrom(OUTSIDE, text[a..b]) {
      forall i | a <= i <= b
        ensures |ScanFrom(OUTSIDE, text[..a]).closers| <= |ScanFrom(OUTSIDE, text[..i]).closers|
      {
        FittingPieceStaysOpen(text, a, b, i);
      }
    } else if StaysOpen(text, a, b) {
      OpenPieceFits(text, a, b);
    }
  }

  /**
   A cut of a text whose brackets fit, sliced to its first and last brace, completes to a
   well-nested text exactly when the slice closes nothing that was opened before it, unless
   the slice starts inside a string.
   */
  lemma SliceCompletesIff(text: string, k: nat)
    requires k <= |text| && FitsFrom(OUTSIDE, text)
    requires !ScanFrom(OUTSIDE, text[..k][..SliceStart(text[..k])]).inString
    ensures WellNested(Completed(ObjectSlice(text[..k]))) <==>
            StaysOpen(text[..k], SliceStart(text[..k]), SliceEnd(text[..k]))
  {
    CutFits(text, k);
    PieceFitsIff(text[..k], SliceStart(text[..k]), SliceEnd(text[..k]));
    CompletedIsWellNestedIff(ObjectSlice(text[..k]));
  }

  /** A cut object completes after any text that leaves no bracket or string open. */
  lemma SliceAfterClosedText(text: string, k: nat)
    requires k <= |text| && FitsFrom(OUTSIDE, text)
    requires ScanFrom(OUTSIDE, text[..k][..SliceStart(text[..k])]) == OUTSIDE
    ensures WellNested(Completed(ObjectSlice(text[..k])))
  {
    SliceCompletesIff(text, k);
  }

  lemma {:induction false} FirstAfter(before: string, text: string, ch: char)
    requires ch !in before && text != "" && text[0] == ch
    ensures FirstOf(before + text, ch) == |before|
    decreases |before|
  {
    if before == "" {
      assert before + text == text;
    } else {
      assert (before + text)[1..] == before[1..] + text;
      FirstAfter(before[1..], text, ch);
    }
  }

  lemma {:induction false} LastWithin(before: string, text: string, ch: char)
    ensures ch in text ==> LastOf(before + text, ch) == |before| + LastOf(text, ch) && LastOf(text, ch) >= 0
    ensures ch !in text ==> LastOf(before + text, ch) < |before|
    decreases |text|
  {
    if text == "" {
      assert before + text == before;
    } else {
      var n := |text| - 1;
      assert text == text[..n] + [text[n]];
      assert (before + text)[..|before| + n] == before + text[..n];
      if text[n] != ch {
        assert ch in text <==> ch in text[..n];
        LastWithin(before, text[..n], ch);
      }
    }
  }

  lemma {:induction false} FirstOfNone(text: string, ch: char)
    requires ch !in text
    ensures FirstOf(text, ch) == -1
  {
    if text != "" {
      FirstOfNone(text[1..], ch);
    }
  }

  /**
   Every cut of an object completes, whatever stands before its first brace: as soon as the
   cut holds a closing brace, that text is sliced off. Without one the whole text is taken,
   and completes exactly when its brackets fit.
   */
  lemma EverySliceCompletes(before: string, whole: string, k: nat)
    requires '{' !in before && whole != "" && whole[0] == '{' && FitsFrom(OUTSIDE, whole) && k <= |whole|
    ensures '}' in whole[..k] ==> WellNested(Completed(ObjectSlice(before + whole[..k])))
    ensures '}' !in whole[..k] ==>
              (WellNested(Completed(ObjectSlice(before + whole[..k]))) <==> FitsFrom(OUTSIDE, before + whole[..k]))
  {
    SliceOfCut(before, whole[..k]);
    if '}' in whole[..k] {
      PieceCompletes(whole, k, LastOf(whole[..k], '}') + 1);
    } else {
      CompletedIsWellNestedIff(before + whole[..k]);
    }
  }

  lemma PieceCompletes(whole: string, k: nat, end: nat)
    requires end <= k <= |whole| && FitsFrom(OUTSIDE, whole)
    ensures WellNested(Completed(whole[..k][..end]))
  {
    assert whole[..k][..end] == whole[..end];
    CutFits(whole, end);
    CompletedIsWellNestedIff(whole[..end]);
  }

  /** The slice runs from the brace that starts the cut to its last closing brace, if it has one. */
  lemma SliceOfCut(before: string, cut: string)
    requires '{' !in before && (cut == "" || cut[0] == '{')
    ensures '}' in cut ==> 0 <= LastOf(cut, '}') && ObjectSlice(before + cut) == cut[..LastOf(cut, '}') + 1]
    ensures '}' !in cut ==> ObjectSlice(before + cut) == before + cut
  {
    var text := before + cut;
    LastWithin(before, cut, '}');
    if cut == "" {
      FirstOfNone(before, '{');
      assert text == before;
    } else {
      FirstAfter(before, cut, '{');
    }
  }

  // ---- documents ---------------------------------------------------------------------------------------

  /** A text by its structure: brackets around parts, strings, and characters that mean nothing to the scanner. */
  datatype Part = Plain(ch: char) | Quoted(content: seq<Quotable>) | Braces(parts: Parts) | Brackets(parts: Parts)
  datatype Parts = Empty | More(first: Part, rest: Parts)
  datatype Quotable = Literal(ch: char) | Escape(ch: char)

  function PrintQuoted(content: seq<Quotable>): string {
    if content == [] then ""
    else (if content[0].Literal? then [content[0].ch] else ['\\', content[0].ch]) + PrintQuoted(content[1..])
  }

  function PrintPart(part: Part): string {
    match part
    case Plain(ch) => [ch]
    case Quoted(content) => "\"" + PrintQuoted(content) + "\""
    case Braces(parts) => "{" + Print(parts) + "}"
    case Brackets(parts) => "[" + Print(parts) + "]"
  }

  function Print(parts: Parts): string {
    match parts
    case Empty => ""
    case More(first, rest) => PrintPart(first) + Print(rest)
  }

  predicate GoodPart(part: Part) {
    match part
    case Plain(ch) => ch !in "\"{}[]"
    case Quoted(content) => forall i :: 0 <= i < |content| && content[i].Literal? ==> content[i].ch !in "\"\\"
    case Braces(parts) => GoodParts(parts)
    case Brackets(parts) => GoodParts(parts)
  }

  predicate GoodParts(parts: Parts) {
    match parts
    case Empty => true
    case More(first, rest) => GoodPart(first) && GoodParts(rest)
  }

  lemma {:induction false} QuotedStaysInside(s: Scan, content: seq<Quotable>)
    requires s.inString && !s.escaped && GoodPart(Quoted(content))
    ensures ScanFrom(s, PrintQuoted(content)) == s && FitsFrom(s, PrintQuoted(content))
    decreases |content|
  {
    if content != [] {
      var first := if content[0].Literal? then [content[0].ch] else ['\\', content[0].ch];
      OneQuotable(s, content[0]);
      QuotedStaysInside(s, content[1..]);
      ScanConcat(s, first, PrintQuoted(content[1..]));
    }
  }

  lemma OneQuotable(s: Scan, q: Quotable)
    requires s.inString && !s.escaped && (q.Literal? ==> q.ch !in "\"\\")
    ensures var first := if q.Literal? then [q.ch] else ['\\', q.ch]; ScanFrom(s, first) == s && FitsFrom(s, first)
  {
    if q.Literal? {
      assert [q.ch][..0] == "";
    } else {
      ScanAppend(s, "", '\\');
      ScanAppend(s, ['\\'], q.ch);
      assert "" + ['\\'] == ['\\'] && ['\\'] + [q.ch] == ['\\', q.ch];
    }
  }

  /** Opening, what is inside, closing. */
  lemma Enclosed(s: Scan, open: char, inside: string, close: char)
    requires var t := Step(s, open);
      && Fits(s, open) && ScanFrom(t, inside) == t && FitsFrom(t, inside) && Step(t, close) == s && Fits(t, close)
    ensures ScanFrom(s, [open] + inside + [close]) == s && FitsFrom(s, [open] + inside + [close])
  {
    ScanAppend(s, "", open);
    assert "" + [open] == [open];
    ScanConcat(s, [open], inside);
    ScanAppend(s, [open] + inside, close);
  }

  lemma {:induction false} PartKeepsScan(s: Scan, part: Part)
    requires !s.inString && !s.escaped && GoodPart(part)
    ensures ScanFrom(s, PrintPart(part)) == s && FitsFrom(s, PrintPart(part))
    decreases part
  {
    match part
    case Plain(ch) => assert [ch][..0] == "";
    case Quoted(content) =>
      QuotedStaysInside(s.(inString := true), content);
      Enclosed(s, '"', PrintQuoted(content), '"');
    case Braces(parts) =>
      PartsKeepScan(s.(closers := s.closers + "}"), parts);
      Enclosed(s, '{', Print(parts), '}');
    case Brackets(parts) =>
      PartsKeepScan(s.(closers := s.closers + "]"), parts);
      Enclosed(s, '[', Print(parts), ']');
  }

  lemma {:induction false} PartsKeepScan(s: Scan, parts: Parts)
    requires !s.inString && !s.escaped && GoodParts(parts)
    ensures ScanFrom(s, Print(parts)) == s && FitsFrom(s, Print(parts))
    decreases parts
  {
    match parts
    case Empty =>
    case More(first, rest) =>
      PartKeepsScan(s, first);
      PartsKeepScan(s, rest);
      ScanConcat(s, PrintPart(first), Print(rest));
  }

  /** Every cut of every document, printed from its structure, completes to a well-nested text. */
  lemma EveryCutDocumentCompletes(parts: Parts, k: nat)
    requires GoodParts(parts) && k <= |Print(parts)|
    ensures WellNested(Print(parts)) && WellNested(Completed(Print(parts)[..k]))
  {
    PartsKeepScan(OUTSIDE, parts);
    EveryCutCompletes(Print(parts), k);
  }

  /** Objects in nested arrays can fail: the slice closes an array that was opened before it. */
  lemma SliceOfArraysFails()
    ensures WellNested("[[{}],[{}]]") && ObjectSlice("[[{}],[{}]]") == "{}],[{}"
    ensures !WellNested(Completed("{}],[{}"))
  {
    PrintsArrays();
    PartsKeepScan(OUTSIDE, More(ARRAYS, Empty));
    FindsBraces();
    CompletedIsWellNestedIff("{}],[{}");
    ClosesTooMuch();
  }

  const ARRAY := Brackets(More(Braces(Empty), Empty))
  const ARRAYS := Brackets(More(ARRAY, More(Plain(','), More(ARRAY, Empty))))

  lemma PrintsArrays()
    ensures Print(More(ARRAYS, Empty)) == "[[{}],[{}]]" && GoodPart(ARRAYS)
  {
    assert PrintPart(Braces(Empty)) == "{}";
    assert PrintPart(ARRAY) == "[{}]" && GoodPart(ARRAY);
    assert Print(More(ARRAY, Empty)) == "[{}]";
    assert Print(More(Plain(','), More(ARRAY, Empty))) == ",[{}]";
    assert Print(More(ARRAY, More(Plain(','), More(ARRAY, Empty)))) == "[{}],[{}]";
    assert GoodParts(More(Plain(','), More(ARRAY, Empty)));
  }

  lemma ClosesTooMuch()
    ensures !FitsFrom(OUTSIDE, "{}],[{}")
  {
    OneTooMuch("{}");
    assert "{}],[{}"[..3] == "{}" + "]";
    if FitsFrom(OUTSIDE, "{}],[{}") {
      CutFits("{}],[{}", 3);
    }
  }

  lemma OneTooMuch(braces: string)
    requires braces == PrintPart(Braces(Empty))
    ensures !FitsFrom(OUTSIDE, braces + "]")
  {
    PartKeepsScan(OUTSIDE, Braces(Empty));
    ScanAppend(OUTSIDE, braces, ']');
  }

  lemma FindsBraces()
    ensures ObjectSlice("[[{}],[{}]]") == "{}],[{}"
  {
    var text := "[[{}],[{}]]";
    assert text[1..][0] == '[' && text[1..][1..][0] == '{';
    assert FirstOf(text[1..][1..], '{') == 0 && FirstOf(text, '{') == 2;
    assert text[..10][9] == ']' && text[..10][..9][8] == '}';
    assert LastOf(text[..10][..9], '}') == 8 && LastOf(text, '}') == 8;
    assert text[2..9] == "{}],[{}";
  }
}
