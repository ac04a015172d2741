/** The Codex CLI provider: how the orchestrator reads a Codex pane's status
  * and the assistant's last answer off the captured terminal text. Each
  * regular expression of the provider is written out as a predicate on one
  * line of that text. */
module CodexProvider {
  import opened Text
  import opened Terminal

  // --------------------------------------------------------- line patterns

  /** The characters `\w` matches; a `\b` separates them from all others. */
  predicate IsAsciiWord(c: char) {
    'a' <= c <= 'z' || 'A' <= c <= 'Z' || '0' <= c <= '9' || c == '_'
  }

  /** `^You\b`: a line that opens a user turn. */
  predicate IsUserLine(l: string) {
    HasPrefix(l, "You") && (|l| == 3 || !IsAsciiWord(l[3]))
  }

  /** The length of the speaker word `assistant`, `codex` or `agent` that a
    * line starts with, 0 when it starts with none. */
  function LabelWord(l: string): (w: nat)
    ensures w <= |l|
  {
    if HasPrefix(l, "assistant") then 9
    else if HasPrefix(l, "codex") || HasPrefix(l, "agent") then 5
    else 0
  }

  /** The length of the speaker label `(assistant|codex|agent)\s*:` that a
    * line starts with, 0 when it has none. */
  function LabelLength(l: string): (n: nat)
    ensures n <= |l|
    ensures n > 0 ==> l[n - 1] == ':'
  {
    var w := LabelWord(l);
    if w == 0 then 0
    else
      var k := Re2SpaceRun(l[w..]);
      if w + k < |l| && l[w + k] == ':' then w + k + 1 else 0
  }

  /** A line that opens an assistant turn. */
  predicate IsAssistantLine(l: string) {
    LabelLength(l) > 0
  }

  /** `^(Error:|ERROR:|Traceback \(most recent call last\):|panic:)`. */
  predicate IsErrorLine(l: string) {
    HasPrefix(l, "Error:") || HasPrefix(l, "ERROR:")
    || HasPrefix(l, "Traceback (most recent call last):") || HasPrefix(l, "panic:")
  }

  /** `\b` at position `i` of `l`: exactly one side of `i` is a `\w`. */
  predicate BoundaryAt(l: string, i: nat)
    requires i <= |l|
  {
    (i > 0 && IsAsciiWord(l[i - 1])) != (i < |l| && IsAsciiWord(l[i]))
  }

  /** `\b(y/n|yes/no|yes|no)\b` matching at position `j`. */
  predicate AnswerAt(l: string, j: nat)
    requires j <= |l|
  {
    BoundaryAt(l, j)
    && (exists a :: a in ["y/n", "yes/no", "yes", "no"]
          && HasPrefix(l[j..], a) && BoundaryAt(l, j + |a|))
  }

  /** `.*\b(y/n|yes/no|yes|no)\b` matching somewhere from position `j` on. */
  predicate AnswerFrom(l: string, j: nat)
    requires j <= |l|
    decreases |l| - j
  {
    AnswerAt(l, j) || (j < |l| && AnswerFrom(l, j + 1))
  }

  /** `^(Approve|Allow)\b.*\b(y/n|yes/no|yes|no)\b`: an approval question. */
  predicate IsApprovalLine(l: string) {
    var w := if HasPrefix(l, "Approve") then 7 else if HasPrefix(l, "Allow") then 5 else 0;
    w > 0 && BoundaryAt(l, w) && AnswerFrom(l, w)
  }

  // ------------------------------------------------------- prompt markers

  /** The length of the idle-prompt marker `❯`, `›` or `codex>` that `s`
    * starts with, 0 when it starts with none. */
  function MarkerLength(s: string): (n: nat)
    ensures n <= |s|
  {
    if |s| > 0 && (s[0] == '❯' || s[0] == '›') then 1
    else if HasPrefix(s, "codex>") then 6
    else 0
  }

  /** `codexIdlePrompt.MatchString(s)`. */
  predicate HasMarker(s: string)
    decreases |s|
  {
    |s| > 0 && (MarkerLength(s) > 0 || HasMarker(s[1..]))
  }

  /** `codexIdlePrompt.ReplaceAllString(s, "")`: every marker removed. Since
    * a marker is never empty, text with a marker always gets shorter. */
  function RemoveMarkers(s: string): (r: string)
    ensures |r| <= |s|
    ensures HasMarker(s) ==> |r| < |s|
    ensures !HasMarker(s) ==> r == s
    decreases |s|
  {
    if s == [] then []
    else if MarkerLength(s) > 0 then RemoveMarkers(s[MarkerLength(s)..])
    else [s[0]] + RemoveMarkers(s[1..])
  }

  /** Text in which no character can belong to a marker has no marker. */
  lemma {:induction false} NoMarkerCharacters(s: string)
    requires forall i :: 0 <= i < |s| ==> s[i] != '❯' && s[i] != '›' && s[i] != '>'
    ensures !HasMarker(s)
    decreases |s|
  {
    if s != [] {
      assert |s| < 6 || s[..6][5] != '>';
      NoMarkerCharacters(s[1..]);
    }
  }

  /** A line holding nothing but idle-prompt markers and white space. */
  predicate IsPromptOnly(l: string) {
    HasMarker(l) && IsBlank(RemoveMarkers(l))
  }

  /** The test the walk in ExtractLastResponse applies to skip such a line:
    * the line has a marker and equals its own trimmed, marker-free form. */
  predicate PromptSkipAsWritten(l: string) {
    HasMarker(l) && l == TrimSpace(RemoveMarkers(l))
  }

  /** `^\s*(❯|›|codex>)\s*$` on one line. */
  predicate IsIdlePromptLine(l: string) {
    var a := Re2SpaceRun(l);
    var m := MarkerLength(l[a..]);
    m > 0 && IsRe2Blank(l[a + m..])
  }

  /** `(?m)(?:^\s*(?:❯|›|codex>)\s*)\s*\z` on the text whose lines are `L`:
    * the last line with anything but `\s` on it is a bare idle prompt. */
  predicate IdleAtEnd(L: seq<string>)
    decreases |L|
  {
    |L| > 0
    && if IsRe2Blank(L[|L| - 1]) then IdleAtEnd(L[..|L| - 1]) else IsIdlePromptLine(L[|L| - 1])
  }

  // ---------------------------------------------------------------- status

  /** The line of the last `^You\b` match, if any. */
  function LastUserLine(L: seq<string>): (r: Option<nat>)
    ensures r.Some? ==> r.value < |L| && IsUserLine(L[r.value])
    ensures r.Some? ==> forall k :: r.value < k < |L| ==> !IsUserLine(L[k])
    ensures r.None? ==> forall k :: 0 <= k < |L| ==> !IsUserLine(L[k])
    decreases |L|
  {
    if L == [] then None
    else if IsUserLine(L[|L| - 1]) then Some(|L| - 1)
    else LastUserLine(L[..|L| - 1])
  }

  /** `\s*:` matching from position `i` of line `k` on. A newline is `\s`,
    * so on the whole text the white space may run on across line ends. */
  predicate ColonFrom(L: seq<string>, k: nat, i: nat)
    requires k < |L| && i <= |L[k]|
    decreases |L| - k
  {
    var r := Re2SpaceRun(L[k][i..]);
    if i + r < |L[k]| then L[k][i + r] == ':'
    else k + 1 < |L| && ColonFrom(L, k + 1, 0)
  }

  /** `(?m)^(?:assistant|codex|agent)\s*:` matching at the start of line `k`
    * of the text whose lines are `L`. */
  predicate LabelAt(L: seq<string>, k: nat)
    requires k < |L|
  {
    LabelWord(L[k]) > 0 && ColonFrom(L, k, LabelWord(L[k]))
  }

  /** `codexAssistant.MatchString` on the text from line `u` on. */
  predicate AssistantFrom(L: seq<string>, u: nat) {
    exists k :: u <= k < |L| && LabelAt(L, k)
  }

  /** A label complete on one line is a match on the whole text. */
  lemma AssistantLineIsLabel(L: seq<string>, k: nat)
    requires k < |L| && IsAssistantLine(L[k])
    ensures LabelAt(L, k)
  {
    var w := LabelWord(L[k]);
    assert Re2SpaceRun(L[k][w..]) == LabelLength(L[k]) - 1 - w;
  }

  predicate ApprovalFrom(L: seq<string>, u: nat) {
    exists k :: u <= k < |L| && IsApprovalLine(L[k])
  }

  predicate ErrorFrom(L: seq<string>, u: nat) {
    exists k :: u <= k < |L| && IsErrorLine(L[k])
  }

  /** What GetStatus reads off the text: where the last user turn starts,
    * what follows it, and whether the text ends in an idle prompt. */
  datatype Screen = Screen(lastUser: Option<nat>, assistantAfterUser: bool,
                           approvalAfterUser: bool, errorAfterUser: bool, idleAtEnd: bool)

  function Observe(clean: string): Screen {
    ObserveLines(Lines(clean))
  }

  function ObserveLines(L: seq<string>): Screen {
    var u := LastUserLine(L);
    Screen(u, u.Some? && AssistantFrom(L, u.value), u.Some? && ApprovalFrom(L, u.value),
           u.Some? && ErrorFrom(L, u.value), IdleAtEnd(L))
  }

  /** The decision order of GetStatus. Alerts are looked for only after a user
    * turn that no assistant turn has answered, and an approval question
    * outranks an error; otherwise an idle prompt at the end means completed
    * when an assistant turn answered the last user turn and idle when not,
    * and anything else is still processing. */
  function Decide(s: Screen): (r: Status)
    ensures s.lastUser.None? ==> r != WaitingUserAnswer && r != Error
    ensures r == WaitingUserAnswer <==> s.lastUser.Some? && !s.assistantAfterUser && s.approvalAfterUser
    ensures r == Error <==>
              s.lastUser.Some? && !s.assistantAfterUser && !s.approvalAfterUser && s.errorAfterUser
    ensures r == Completed <==> s.idleAtEnd && s.lastUser.Some? && s.assistantAfterUser
    ensures r == Idle <==>
              s.idleAtEnd && !(s.lastUser.Some? && (s.assistantAfterUser || s.approvalAfterUser || s.errorAfterUser))
    ensures r == Processing <==>
              !s.idleAtEnd && !(s.lastUser.Some? && !s.assistantAfterUser && (s.approvalAfterUser || s.errorAfterUser))
  {
    if s.lastUser.Some? && !s.assistantAfterUser && s.approvalAfterUser then WaitingUserAnswer
    else if s.lastUser.Some? && !s.assistantAfterUser && s.errorAfterUser then Error
    else if s.idleAtEnd then (if s.lastUser.Some? && s.assistantAfterUser then Completed else Idle)
    else Processing
  }

  /** `CodexProvider.GetStatus`: strip colour codes, then decide. */
  function GetStatus(raw: string): Status {
    Decide(Observe(StripSgr(raw)))
  }

  /** The lines of a pane whose assistant label has its colon on the next
    * line. */
  const CrossLineLabel: seq<string> := ["You: go", "assistant", ": done", "›"]

  lemma PrefixHead(l: string, p: string)
    requires p != [] && HasPrefix(l, p)
    ensures l != [] && l[0] == p[0]
  {
    assert l[..|p|][0] == l[0];
  }

  /** A line whose first character starts none of the patterns matches none
    * of them. */
  lemma FirstCharRulesOut(l: string)
    requires l != []
    ensures l[0] != 'Y' ==> !IsUserLine(l)
    ensures l[0] != 'a' && l[0] != 'c' ==> LabelWord(l) == 0
    ensures l[0] != 'A' ==> !IsApprovalLine(l)
    ensures l[0] != 'E' && l[0] != 'T' && l[0] != 'p' ==> !IsErrorLine(l)
  {
    if HasPrefix(l, "You") { PrefixHead(l, "You"); }
    if HasPrefix(l, "assistant") { PrefixHead(l, "assistant"); }
    if HasPrefix(l, "codex") { PrefixHead(l, "codex"); }
    if HasPrefix(l, "agent") { PrefixHead(l, "agent"); }
    if HasPrefix(l, "Approve") { PrefixHead(l, "Approve"); }
    if HasPrefix(l, "Allow") { PrefixHead(l, "Allow"); }
    if HasPrefix(l, "Error:") { PrefixHead(l, "Error:"); }
    if HasPrefix(l, "ERROR:") { PrefixHead(l, "ERROR:"); }
    if HasPrefix(l, "Traceback (most recent call last):") {
      PrefixHead(l, "Traceback (most recent call last):");
    }
    if HasPrefix(l, "panic:") { PrefixHead(l, "panic:"); }
  }

  /** No single line of that pane holds a whole label. */
  lemma CrossLineLabelNoLine()
    ensures forall k :: 0 <= k < |CrossLineLabel| ==> !IsAssistantLine(CrossLineLabel[k])
  {
    var L := CrossLineLabel;
    FirstCharRulesOut(L[0]);
    FirstCharRulesOut(L[2]);
    FirstCharRulesOut(L[3]);
    assert L[1][9..] == [];
  }

  /** Only the first line of that pane opens a user turn. */
  lemma CrossLineLabelUsers()
    ensures IsUserLine(CrossLineLabel[0])
    ensures forall k :: 1 <= k < |CrossLineLabel| ==> !IsUserLine(CrossLineLabel[k])
  {
    var L := CrossLineLabel;
    assert L[0][..3] == "You" && L[0][3] == ':';
    FirstCharRulesOut(L[1]);
    FirstCharRulesOut(L[2]);
    FirstCharRulesOut(L[3]);
  }

  /** No line of that pane is an approval question or an error. */
  lemma CrossLineLabelNoAlerts()
    ensures !ApprovalFrom(CrossLineLabel, 0) && !ErrorFrom(CrossLineLabel, 0)
  {
    var L := CrossLineLabel;
    forall k | 0 <= k < |L|
      ensures !IsApprovalLine(L[k]) && !IsErrorLine(L[k])
    {
      if k == 0 { FirstCharRulesOut(L[0]); }
      else if k == 1 { FirstCharRulesOut(L[1]); }
      else if k == 2 { FirstCharRulesOut(L[2]); }
      else { FirstCharRulesOut(L[3]); }
    }
  }

  /** Still, the label's `\s*` runs across the line end, so the user turn
    * counts as answered and the idle prompt at the end means completed. */
  lemma CrossLineLabelScreen()
    ensures ObserveLines(CrossLineLabel) == Screen(Some(0), true, false, false, true)
  {
    var L := CrossLineLabel;
    CrossLineLabelUsers();
    CrossLineLabelNoAlerts();
    assert L[..3][..2][..1] == [L[0]];
    assert LastUserLine(L) == Some(0);
    assert L[1][9..] == [] && L[2][0..] == L[2] && L[2][0] == ':';
    assert ColonFrom(L, 2, 0);
    assert LabelAt(L, 1);
    assert L[3][0] == '›' && L[3][0..] == L[3] && L[3][1..] == [];
    assert !IsRe2Blank(L[3]) && IsIdlePromptLine(L[3]);
    assert IdleAtEnd(L);
  }

  /** The pane's text: its lines joined by newlines, with no escape in it. */
  lemma CrossLineLabelText()
    ensures Esc !in Join(CrossLineLabel, "\n")
    ensures Lines(Join(CrossLineLabel, "\n")) == CrossLineLabel
  {
    var L := CrossLineLabel;
    var text := Join(L, "\n");
    assert Join(L[3..], "\n") == L[3];
    assert Join(L[2..], "\n") == L[2] + "\n" + L[3] by { assert L[2..][1..] == L[3..]; }
    assert Join(L[1..], "\n") == L[1] + "\n" + Join(L[2..], "\n") by { assert L[1..][1..] == L[2..]; }
    assert text == L[0] + "\n" + Join(L[1..], "\n");
    assert forall i :: 0 <= i < |text| ==> text[i] != Esc;
    SplitJoin(L, '\n');
  }

  /** End to end on the pane text: completed, although no line holds a label. */
  lemma LabelAcrossLinesCompleted()
    ensures (forall k :: 0 <= k < |CrossLineLabel| ==> !IsAssistantLine(CrossLineLabel[k]))
            && GetStatus(Join(CrossLineLabel, "\n")) == Completed
  {
    CrossLineLabelNoLine();
    CrossLineLabelText();
    CrossLineLabelScreen();
  }

  // -------------------------------------------------------- last response

  /** `strings.TrimSpace` applied to every line. */
  function TrimLines(L: seq<string>): (T: seq<string>)
    ensures |T| == |L|
    ensures forall i :: 0 <= i < |L| ==> T[i] == TrimSpace(L[i])
  {
    seq(|L|, i requires 0 <= i < |L| => TrimSpace(L[i]))
  }

  /** The line tests of the backward walk in ExtractLastResponse: the lines
    * it passes over, the lines that open an assistant or a user turn, and
    * what it keeps of an assistant line. */
  datatype Walk = Walk(skip: string -> bool, assistant: string -> bool, user: string -> bool,
                       rest: string -> string)

  function AfterLabel(l: string): string {
    l[LabelLength(l)..]
  }

  /** The walk that passes over lines holding only an idle prompt. */
  const PromptSkipping := Walk(IsPromptOnly, IsAssistantLine, IsUserLine, AfterLabel)

  /** The walk as written, whose skip test never holds. */
  const AsWritten := Walk(PromptSkipAsWritten, IsAssistantLine, IsUserLine, AfterLabel)

  predicate IsTurn(w: Walk, l: string) {
    !w.skip(l) && (w.assistant(l) || w.user(l))
  }

  /** The walk over the trimmed lines `T` not yet visited, with the lines
    * `acc` collected so far. */
  function Collect(T: seq<string>, acc: seq<string>, w: Walk): seq<string>
    decreases |T|
  {
    if T == [] then acc
    else
      var line := T[|T| - 1];
      if w.skip(line) then Collect(T[..|T| - 1], acc, w)
      else if w.assistant(line) then [w.rest(line)] + acc
      else if w.user(line) then acc
      else if acc != [] || line != "" then Collect(T[..|T| - 1], [line] + acc, w)
      else Collect(T[..|T| - 1], acc, w)
  }

  /** The last turn line: where the walk stops. */
  function LastTurn(T: seq<string>, w: Walk): (r: Option<nat>)
    ensures r.Some? ==> r.value < |T| && IsTurn(w, T[r.value])
    ensures forall k :: (if r.Some? then r.value + 1 else 0) <= k < |T| ==> !IsTurn(w, T[k])
    decreases |T|
  {
    if T == [] then None
    else if IsTurn(w, T[|T| - 1]) then Some(|T| - 1)
    else LastTurn(T[..|T| - 1], w)
  }

  /** The lines of `T` that the walk does not pass over, in order. */
  function Kept(T: seq<string>, w: Walk): (r: seq<string>)
    ensures forall j :: 0 <= j < |r| ==> !w.skip(r[j])
    decreases |T|
  {
    if T == [] then []
    else if w.skip(T[|T| - 1]) then Kept(T[..|T| - 1], w)
    else Kept(T[..|T| - 1], w) + [T[|T| - 1]]
  }

  /** `T` without its trailing empty lines. */
  function DropTrailingEmpty(T: seq<string>): (r: seq<string>)
    ensures |r| <= |T| && r == T[..|r|]
    ensures r == [] || r[|r| - 1] != ""
    decreases |T|
  {
    if T == [] then []
    else if T[|T| - 1] == "" then DropTrailingEmpty(T[..|T| - 1])
    else T
  }

  /** The lines after the turn line that the walk collects. */
  function Body(T: seq<string>, w: Walk): seq<string> {
    var k := LastTurn(T, w);
    Kept(if k.Some? then T[k.value + 1..] else T, w)
  }

  /** What the walk keeps of the turn line: the rest of an assistant line. */
  function Head(T: seq<string>, w: Walk): seq<string> {
    var k := LastTurn(T, w);
    if k.Some? && w.assistant(T[k.value]) then [w.rest(T[k.value])] else []
  }

  /** The response described without the walk: the kept rest of the last
    * turn line, then the lines after it that are not passed over, without
    * trailing empty ones. */
  function Response(T: seq<string>, w: Walk): seq<string> {
    Head(T, w) + DropTrailingEmpty(Body(T, w))
  }

  /** The collected lines once the walk reaches the turn line: with nothing
    * collected yet, the body loses its trailing empty lines. */
  function Fill(body: seq<string>, acc: seq<string>): seq<string> {
    if acc == [] then DropTrailingEmpty(body) else body + acc
  }

  /** A last line that is no turn line leaves the turn line and the head
    * alone, and joins the body unless it is passed over. */
  lemma BodyStep(T: seq<string>, w: Walk)
    requires T != [] && !IsTurn(w, T[|T| - 1])
    ensures Head(T, w) == Head(T[..|T| - 1], w)
    ensures w.skip(T[|T| - 1]) ==> Body(T, w) == Body(T[..|T| - 1], w)
    ensures !w.skip(T[|T| - 1]) ==> Body(T, w) == Body(T[..|T| - 1], w) + [T[|T| - 1]]
  {
    var init, line := T[..|T| - 1], T[|T| - 1];
    var k := LastTurn(init, w);
    assert LastTurn(T, w) == k;
    var from := if k.Some? then k.value + 1 else 0;
    assert T[from..] == init[from..] + [line];
    assert T[from..][..|T[from..]| - 1] == init[from..];
  }

  /** The walk stops at a turn line, keeping the rest of an assistant line. */
  lemma TurnStep(T: seq<string>, acc: seq<string>, w: Walk)
    requires T != [] && IsTurn(w, T[|T| - 1])
    ensures Collect(T, acc, w) == Head(T, w) + Fill(Body(T, w), acc)
  {
    assert T[|T|..] == [];
    assert Body(T, w) == [];
    assert Fill([], acc) == acc;
  }

  /** A line passed over changes nothing. */
  lemma SkipStep(T: seq<string>, acc: seq<string>, w: Walk)
    requires T != [] && w.skip(T[|T| - 1])
    requires Collect(T[..|T| - 1], acc, w) == Head(T[..|T| - 1], w) + Fill(Body(T[..|T| - 1], w), acc)
    ensures Collect(T, acc, w) == Head(T, w) + Fill(Body(T, w), acc)
  {
    BodyStep(T, w);
  }

  lemma CollectKeeps(T: seq<string>, acc: seq<string>, w: Walk)
    requires T != [] && !w.skip(T[|T| - 1]) && !IsTurn(w, T[|T| - 1])
    requires acc != [] || T[|T| - 1] != ""
    ensures Collect(T, acc, w) == Collect(T[..|T| - 1], [T[|T| - 1]] + acc, w)
  {
  }

  lemma FillKeep(b: seq<string>, line: string, acc: seq<string>)
    requires acc != [] || line != ""
    ensures Fill(b, [line] + acc) == Fill(b + [line], acc)
  {
    if acc == [] {
      assert b + ([line] + acc) == b + [line];
    } else {
      assert b + ([line] + acc) == (b + [line]) + acc;
    }
  }

  /** A line that is collected joins the body. */
  lemma KeepStep(T: seq<string>, acc: seq<string>, w: Walk)
    requires T != [] && !w.skip(T[|T| - 1]) && !IsTurn(w, T[|T| - 1])
    requires acc != [] || T[|T| - 1] != ""
    requires Collect(T[..|T| - 1], [T[|T| - 1]] + acc, w)
             == Head(T[..|T| - 1], w) + Fill(Body(T[..|T| - 1], w), [T[|T| - 1]] + acc)
    ensures Collect(T, acc, w) == Head(T, w) + Fill(Body(T, w), acc)
  {
    CollectKeeps(T, acc, w);
    BodyStep(T, w);
    FillKeep(Body(T[..|T| - 1], w), T[|T| - 1], acc);
  }

  /** An empty line before anything is collected is dropped. */
  lemma DropStep(T: seq<string>, w: Walk)
    requires T != [] && !w.skip(T[|T| - 1]) && !IsTurn(w, T[|T| - 1]) && T[|T| - 1] == ""
    requires Collect(T[..|T| - 1], [], w) == Head(T[..|T| - 1], w) + Fill(Body(T[..|T| - 1], w), [])
    ensures Collect(T, [], w) == Head(T, w) + Fill(Body(T, w), [])
  {
    BodyStep(T, w);
    var b, line := Body(T[..|T| - 1], w), T[|T| - 1];
    assert (b + [line])[..|b + [line]| - 1] == b;
  }

  lemma {:induction false} CollectShape(T: seq<string>, acc: seq<string>, w: Walk)
    ensures Collect(T, acc, w) == Head(T, w) + Fill(Body(T, w), acc)
    decreases |T|
  {
    if T != [] {
      var init, line := T[..|T| - 1], T[|T| - 1];
      if w.skip(line) {
        CollectShape(init, acc, w);
        SkipStep(T, acc, w);
      } else if IsTurn(w, line) {
        TurnStep(T, acc, w);
      } else if acc != [] || line != "" {
        CollectShape(init, [line] + acc, w);
        KeepStep(T, acc, w);
      } else {
        CollectShape(init, acc, w);
        DropStep(T, w);
      }
    }
  }

  /** The walk returns exactly the described response. */
  lemma CollectIsResponse(T: seq<string>, w: Walk)
    ensures Collect(T, [], w) == Response(T, w)
  {
    CollectShape(T, [], w);
  }

  /** `CodexProvider.ExtractLastResponse`, passing over lines that hold only
    * an idle prompt. */
  method ExtractLastResponse(raw: string) returns (r: string)
    ensures r == TrimSpace(Join(Response(TrimLines(Lines(StripSgr(raw))), PromptSkipping), "\n"))
  {
    var lines := Lines(StripSgr(raw));
    ghost var T := TrimLines(lines);
    var responseLines: seq<string> := [];
    var inResponse := false;
    var i := |lines|;
    assert T[..i] == T;
    while i > 0
      invariant 0 <= i <= |lines|
      invariant inResponse <==> responseLines != []
      invariant Collect(T, [], PromptSkipping) == Collect(T[..i], responseLines, PromptSkipping)
    {
      var line := TrimSpace(lines[i - 1]);
      assert T[..i][..i - 1] == T[..i - 1] && T[..i][i - 1] == line;
      if IsPromptOnly(line) {
      } else if IsAssistantLine(line) {
        inResponse := true;
        responseLines := [line[LabelLength(line)..]] + responseLines;
        break;
      } else if IsUserLine(line) {
        break;
      } else if inResponse || |responseLines| > 0 || line != "" {
        responseLines := [line] + responseLines;
        inResponse := true;
      }
      i := i - 1;
    }
    CollectIsResponse(T, PromptSkipping);
    r := TrimSpace(Join(responseLines, "\n"));
  }

  // --------------------------------------------------- the prompt skip

  /** The skip test as written never holds: removing a marker shortens the
    * line, and trimming cannot lengthen it again. */
  lemma PromptSkipAsWrittenNeverHolds(l: string)
    ensures !PromptSkipAsWritten(l)
  {
  }

  /** So the walk as written passes over no line: everything after the last
    * turn line is in the body. */
  lemma {:induction false} AsWrittenKeepsAll(T: seq<string>)
    ensures Kept(T, AsWritten) == T
  {
    if T != [] {
      PromptSkipAsWrittenNeverHolds(T[|T| - 1]);
      AsWrittenKeepsAll(T[..|T| - 1]);
    }
  }

  lemma AnswerLine()
    ensures IsAssistantLine("assistant: done") && AfterLabel("assistant: done") == " done"
    ensures !IsPromptOnly("assistant: done")
  {
    var answer := "assistant: done";
    assert HasPrefix(answer, "assistant");
    assert answer[9..] == ": done";
    assert Re2SpaceRun(": done") == 0;
    assert LabelLength(answer) == 10;
    NoMarkerCharacters(answer);
  }

  lemma PromptLine()
    ensures IsPromptOnly("›")
    ensures !IsAssistantLine("›") && !IsUserLine("›")
  {
    var prompt := "›";
    assert MarkerLength(prompt) == 1 && HasMarker(prompt);
    assert RemoveMarkers(prompt) == [];
    assert |prompt| == 1;
  }

  /** An assistant line followed by a line holding only a prompt: as written
    * the prompt is kept as the last response line ... */
  lemma PromptLineKeptAsWritten(answer: string, prompt: string)
    requires IsAssistantLine(answer) && IsPromptOnly(prompt)
    requires !IsAssistantLine(prompt) && !IsUserLine(prompt)
    ensures Collect([answer, prompt], [], AsWritten) == [AfterLabel(answer), prompt]
  {
    var T := [answer, prompt];
    PromptSkipAsWrittenNeverHolds(prompt);
    PromptSkipAsWrittenNeverHolds(answer);
    CollectKeeps(T, [], AsWritten);
    assert T[..1] == [answer] && [T[1]] + [] == [prompt];
  }

  /** ... while the walk that passes over prompt-only lines drops it. */
  lemma PromptLineSkipped(answer: string, prompt: string)
    requires IsAssistantLine(answer) && !IsPromptOnly(answer) && IsPromptOnly(prompt)
    ensures Collect([answer, prompt], [], PromptSkipping) == [AfterLabel(answer)]
  {
    var T := [answer, prompt];
    assert T[..1] == [answer] && T[..1][..0] == [];
  }

  /** Such a pair: the answer `assistant: done` and the prompt `›`. */
  lemma PromptLineExample()
    ensures IsAssistantLine("assistant: done") && !IsPromptOnly("assistant: done")
    ensures AfterLabel("assistant: done") == " done"
    ensures IsPromptOnly("›") && !IsAssistantLine("›") && !IsUserLine("›")
  {
    AnswerLine();
    PromptLine();
  }

  /** With prompt-only lines passed over, no line of the body is one. */
  lemma ResponseBodyHasNoPromptLine(T: seq<string>)
    ensures forall j :: 0 <= j < |DropTrailingEmpty(Body(T, PromptSkipping))| ==>
              !IsPromptOnly(DropTrailingEmpty(Body(T, PromptSkipping))[j])
  {
    var b := Body(T, PromptSkipping);
    var d := DropTrailingEmpty(b);
    forall j | 0 <= j < |d|
      ensures !IsPromptOnly(d[j])
    {
      assert d[j] == b[j];
    }
  }
}
