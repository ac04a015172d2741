/** The Claude Code provider: how the orchestrator reads a Claude Code
  * pane's status and its last answer off the captured terminal text. Each
  * regular expression of the provider is written out as a predicate. */
module ClaudeProvider {
  import opened Text
  import opened Terminal

  // -------------------------------------------------------------- patterns

  /** The spinner glyphs shown while a request runs. */
  predicate IsSpinner(c: char) {
    c == '✶' || c == '✢' || c == '✽' || c == '✻' || c == '·' || c == '✳'
  }

  /** `\(esc to interrupt.*\)` somewhere in `s`. */
  predicate InterruptHint(s: string)
    decreases |s|
  {
    |s| > 0 && ((HasPrefix(s, "(esc to interrupt") && ')' in s[17..]) || InterruptHint(s[1..]))
  }

  /** `….*\(esc to interrupt.*\)` somewhere in `s`. */
  predicate EllipsisThenHint(s: string)
    decreases |s|
  {
    |s| > 0 && ((s[0] == '…' && InterruptHint(s[1..])) || EllipsisThenHint(s[1..]))
  }

  /** `[✶✢✽✻·✳].*….*\(esc to interrupt.*\)` within one line (`.` stops at a
    * newline): the busy indicator. */
  predicate IsProcessingLine(l: string)
    decreases |l|
  {
    |l| > 0 && ((IsSpinner(l[0]) && EllipsisThenHint(l[1..])) || IsProcessingLine(l[1..]))
  }

  /** `\d+\.` somewhere in `s`: a digit directly before a full stop. */
  predicate NumberedItem(s: string)
    decreases |s|
  {
    |s| >= 2 && ((IsDigit(s[0]) && s[1] == '.') || NumberedItem(s[1..]))
  }

  /** `❯.*\d+\.` within one line: a numbered choice under the selection
    * cursor. */
  predicate IsChoiceLine(l: string)
    decreases |l|
  {
    |l| > 0 && ((l[0] == '❯' && NumberedItem(l[1..])) || IsChoiceLine(l[1..]))
  }

  /** `>[\s\xa0]` somewhere in the text: the input prompt. */
  predicate HasIdlePrompt(s: string)
    decreases |s|
  {
    |s| >= 2 && ((s[0] == '>' && (IsRe2Space(s[1]) || s[1] == '\U{A0}')) || HasIdlePrompt(s[1..]))
  }

  /** `t` is a run of complete SGR sequences, one after another. */
  predicate SgrSequences(t: string)
    decreases |t|
  {
    t == [] || (SgrLength(t) > 0 && SgrSequences(t[SgrLength(t)..]))
  }

  /** An SGR sequence at the start of `s` is also the one at the start of
    * any prefix of `s` that holds it. */
  lemma SgrLengthOfPrefix(s: string, n: nat)
    requires SgrLength(s) > 0 && SgrLength(s) <= n <= |s|
    ensures SgrLength(s[..n]) == SgrLength(s)
    ensures s[..n][SgrLength(s)..] == s[SgrLength(s)..][..n - SgrLength(s)]
  {
    var k := SgrLength(s);
    var t := s[..n];
    assert t[0] == Esc && t[1] == '[' && t[k - 1] == 'm';
    assert forall i :: 2 <= i < k - 1 ==> t[i] == s[i];
  }

  /** The number of characters taken by the SGR sequences `s` starts with:
    * `(?:\x1b\[[0-9;]*m)*`, matched greedily (`SgrRunIsSequences`, `SgrRunIsMaximal`). */
  function SgrRun(s: string): (n: nat)
    ensures n <= |s|
    decreases |s|
  {
    var k := SgrLength(s);
    if k > 0 then k + SgrRun(s[k..]) else 0
  }

  /** A complete SGR sequence followed by a run of them is a run. */
  lemma SgrSequencesCons(t: string, k: nat)
    requires SgrLength(t) == k > 0 && SgrSequences(t[k..])
    ensures SgrSequences(t)
  {
  }

  /** The sequence `s` starts with, followed by a run of `m` characters, is
    * a run. */
  lemma SgrSequencesPrefix(s: string, k: nat, m: nat)
    requires SgrLength(s) == k > 0 && k + m <= |s| && SgrSequences(s[k..][..m])
    ensures SgrSequences(s[..k + m])
  {
    SgrLengthOfPrefix(s, k + m);
    SgrSequencesCons(s[..k + m], k);
  }

  /** The run `SgrRun` measures is made of complete SGR sequences one after
    * another. */
  lemma {:induction false} SgrRunIsSequences(s: string)
    ensures SgrSequences(s[..SgrRun(s)])
    decreases |s|
  {
    if SgrLength(s) > 0 {
      SgrRunIsSequences(s[SgrLength(s)..]);
      SgrRunStep(s);
    } else {
      assert s[..0] == [];
    }
  }

  /** One step of the run: a sequence, then the run after it. */
  lemma SgrRunStep(s: string)
    requires SgrLength(s) > 0
    requires SgrSequences(s[SgrLength(s)..][..SgrRun(s[SgrLength(s)..])])
    ensures SgrSequences(s[..SgrRun(s)])
  {
    var k := SgrLength(s);
    var m := SgrRun(s[k..]);
    var n := SgrRun(s);
    assert n == k + m;
    SgrSequencesPrefix(s, k, m);
    assert s[..n] == s[..k + m];
  }

  /** No further SGR sequence follows the run, as with the greedy
    * `(?:\x1b\[[0-9;]*m)*`. */
  lemma {:induction false} SgrRunIsMaximal(s: string)
    ensures SgrLength(s[SgrRun(s)..]) == 0
    decreases |s|
  {
    var k := SgrLength(s);
    if k > 0 {
      SgrRunIsMaximal(s[k..]);
      assert s[SgrRun(s)..] == s[k..][SgrRun(s[k..])..];
    }
  }

  /** The length of the response marker `⏺(?:\x1b\[[0-9;]*m)*\s+` that `s`
    * starts with, 0 when it starts with none. */
  function MarkerLength(s: string): (n: nat)
    ensures n <= |s|
    ensures n > 0 ==> s[0] == '⏺' && n >= 2 && IsRe2Space(s[n - 1])
  {
    if |s| > 0 && s[0] == '⏺' then
      var g := SgrRun(s[1..]);
      var w := Re2SpaceRun(s[1 + g..]);
      if w > 0 then
        assert s[1 + g..][w - 1] == s[g + w];
        1 + g + w
      else 0
    else 0
  }

  /** Where the last match of a pattern before position `n` starts, given
    * the length `len` of the match a text starts with (0 for none). */
  function LastMatchBefore(s: string, n: nat, len: string -> nat): (r: Option<nat>)
    requires n <= |s|
    ensures r.Some? ==> r.value < n && len(s[r.value..]) > 0
    ensures forall q :: (if r.Some? then r.value + 1 else 0) <= q < n ==> len(s[q..]) == 0
    decreases n
  {
    if n == 0 then None
    else if len(s[n - 1..]) > 0 then Some(n - 1)
    else LastMatchBefore(s, n - 1, len)
  }

  /** Where the last response marker starts. A marker holds no `⏺` after its
    * first character, so the matches `FindAllStringIndex` reports are exactly
    * the positions where one starts, and the last of them is the last such
    * position. */
  function LastMarker(s: string): (r: Option<nat>)
    ensures r.Some? ==> r.value < |s| && MarkerLength(s[r.value..]) > 0
    ensures forall q :: (if r.Some? then r.value + 1 else 0) <= q < |s| ==> MarkerLength(s[q..]) == 0
  {
    LastMatchBefore(s, |s|, MarkerLength)
  }

  // ---------------------------------------------------------------- status

  /** What GetStatus reads off the text. */
  datatype Screen = Screen(processing: bool, choice: bool, responseMarker: bool, idlePrompt: bool)

  function Observe(raw: string): Screen {
    var L := Lines(raw);
    Screen(exists k :: 0 <= k < |L| && IsProcessingLine(L[k]),
           exists k :: 0 <= k < |L| && IsChoiceLine(L[k]),
           LastMarker(raw).Some?, HasIdlePrompt(raw))
  }

  /** The priority chain of GetStatus: busy, then a pending choice, then the
    * prompt with an answer on screen (completed) or without (idle); no prompt
    * at all is an error. */
  function Decide(s: Screen): (r: Status)
    ensures r == Processing <==> s.processing
    ensures r == WaitingUserAnswer <==> !s.processing && s.choice
    ensures r == Completed <==> !s.processing && !s.choice && s.idlePrompt && s.responseMarker
    ensures r == Idle <==> !s.processing && !s.choice && s.idlePrompt && !s.responseMarker
    ensures r == Error <==> !s.processing && !s.choice && !s.idlePrompt
  {
    if s.processing then Processing
    else if s.choice then WaitingUserAnswer
    else if s.idlePrompt && s.responseMarker then Completed
    else if s.idlePrompt then Idle
    else Error
  }

  /** `ClaudeCodeProvider.GetStatus`, on the raw text (no colour stripping). */
  function GetStatus(raw: string): Status {
    Decide(Observe(raw))
  }

  /** A completed pane shows both the input prompt and a response marker. */
  lemma CompletedShowsPromptAndMarker(raw: string)
    ensures GetStatus(raw) == Completed ==> HasIdlePrompt(raw) && LastMarker(raw).Some?
  {
  }

  // -------------------------------------------------------- last response

  /** `^>\s` or `─{4,}` on a trimmed line: the input prompt with text typed
    * into it, or a rule drawn below the answer. */
  predicate IsStopLine(t: string) {
    (|t| >= 2 && t[0] == '>' && IsRe2Space(t[1])) || Contains(t, "────")
  }

  /** The trimmed lines up to the first one that `stop` holds for. */
  function UntilStop(L: seq<string>, stop: string -> bool): (R: seq<string>)
    ensures |R| <= |L|
    decreases |L|
  {
    if L == [] then []
    else if stop(TrimSpace(L[0])) then []
    else [TrimSpace(L[0])] + UntilStop(L[1..], stop)
  }

  /** The collected lines are the trimmed lines of the text in order, none of
    * them a stop line, and the walk ends at the end of the text or on a stop
    * line. */
  lemma {:induction false} UntilStopIsLongestPrefix(L: seq<string>, stop: string -> bool)
    ensures forall j :: 0 <= j < |UntilStop(L, stop)| ==>
              UntilStop(L, stop)[j] == TrimSpace(L[j]) && !stop(UntilStop(L, stop)[j])
    ensures |UntilStop(L, stop)| < |L| ==> stop(TrimSpace(L[|UntilStop(L, stop)|]))
    decreases |L|
  {
    if L != [] && !stop(TrimSpace(L[0])) {
      var T := UntilStop(L[1..], stop);
      UntilStopIsLongestPrefix(L[1..], stop);
      assert UntilStop(L, stop) == [TrimSpace(L[0])] + T;
      StopPrefixCons(L, T, stop);
    }
  }

  /** One non-stop line in front of a collected prefix of the rest. */
  lemma StopPrefixCons(L: seq<string>, T: seq<string>, stop: string -> bool)
    requires L != [] && !stop(TrimSpace(L[0])) && |T| <= |L| - 1
    requires forall j :: 0 <= j < |T| ==> T[j] == TrimSpace(L[1..][j]) && !stop(T[j])
    requires |T| < |L| - 1 ==> stop(TrimSpace(L[1..][|T|]))
    ensures forall j :: 0 <= j < 1 + |T| ==>
              ([TrimSpace(L[0])] + T)[j] == TrimSpace(L[j]) && !stop(([TrimSpace(L[0])] + T)[j])
    ensures 1 + |T| < |L| ==> stop(TrimSpace(L[1 + |T|]))
  {
    var R := [TrimSpace(L[0])] + T;
    forall j | 0 <= j < |R|
      ensures R[j] == TrimSpace(L[j]) && !stop(R[j])
    {
      if j > 0 {
        assert R[j] == T[j - 1] && L[j] == L[1..][j - 1];
      }
    }
    if 1 + |T| < |L| {
      assert L[1 + |T|] == L[1..][|T|];
    }
  }

  /** The text after the response marker that starts at `p`. */
  function AfterMarkerAt(raw: string, p: nat): string
    requires p < |raw|
  {
    raw[p + MarkerLength(raw[p..])..]
  }

  /** The text after the last response marker, when there is one. */
  function AfterLastMarker(raw: string): Option<string> {
    var m := LastMarker(raw);
    if m.Some? then Some(AfterMarkerAt(raw, m.value)) else None
  }

  lemma UntilStopStep(L: seq<string>, i: nat, stop: string -> bool)
    requires i < |L|
    ensures stop(TrimSpace(L[i])) ==> UntilStop(L[i..], stop) == []
    ensures !stop(TrimSpace(L[i])) ==>
              UntilStop(L[i..], stop) == [TrimSpace(L[i])] + UntilStop(L[i + 1..], stop)
  {
    assert L[i..][1..] == L[i + 1..];
  }

  /** The forward walk of ExtractLastResponse: collect trimmed lines until
    * the first stop line. */
  method TakeUntilStop(lines: seq<string>, stop: string -> bool) returns (R: seq<string>)
    ensures R == UntilStop(lines, stop)
  {
    R := [];
    var i := 0;
    while i < |lines|
      invariant 0 <= i <= |lines|
      invariant UntilStop(lines, stop) == R + UntilStop(lines[i..], stop)
    {
      var trimmed := TrimSpace(lines[i]);
      UntilStopStep(lines, i, stop);
      if stop(trimmed) {
        break;
      }
      R := R + [trimmed];
      i := i + 1;
    }
    assert R + [] == R;
  }

  /** `ClaudeCodeProvider.ExtractLastResponse`: nothing without a marker;
    * otherwise the lines after the last marker up to the first stop line,
    * trimmed, joined, trimmed again and stripped of colour codes. */
  method ExtractLastResponse(raw: string) returns (r: string)
    ensures AfterLastMarker(raw).None? ==> r == ""
    ensures AfterLastMarker(raw).Some? ==>
              r == StripSgr(TrimSpace(Join(UntilStop(Lines(AfterLastMarker(raw).value), IsStopLine), "\n")))
  {
    var m := LastMarker(raw);
    if m.None? {
      return "";
    }
    var remaining := AfterMarkerAt(raw, m.value);
    var responseLines := TakeUntilStop(Lines(remaining), IsStopLine);
    var result := TrimSpace(Join(responseLines, "\n"));
    r := StripSgr(result);
  }
}
