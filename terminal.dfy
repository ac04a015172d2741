/** What the provider layer shares about captured tmux pane text: the status
  * vocabulary a coding CLI can be in, the white space of Go's regular
  * expressions, and removal of ECMA-48 "select graphic rendition" (SGR)
  * control sequences, `ESC [ parameters m` (section 8.3.117 of ECMA-48). */
module Terminal {
  import opened Text

  /** The state a provider reads off a pane. */
  datatype Status = Idle | Processing | Completed | WaitingUserAnswer | Error

  function StatusText(s: Status): (r: string)
    ensures r != ""
  {
    match s
    case Idle => "idle"
    case Processing => "processing"
    case Completed => "completed"
    case WaitingUserAnswer => "waiting_user_answer"
    case Error => "error"
  }

  // ----------------------------------------------------------- white space

  /** `\s` in Go's regular expressions: space, tab, newline, form feed and
    * carriage return (unlike `unicode.IsSpace`, not the vertical tab). */
  predicate IsRe2Space(c: char) {
    c == ' ' || c == '\t' || c == '\n' || c == '\U{0C}' || c == '\r'
  }

  predicate IsRe2Blank(s: string) {
    forall i :: 0 <= i < |s| ==> IsRe2Space(s[i])
  }

  /** The number of `\s` characters `s` starts with (a greedy `\s*`). */
  function Re2SpaceRun(s: string): (n: nat)
    ensures n <= |s|
    ensures IsRe2Blank(s[..n])
    ensures n < |s| ==> !IsRe2Space(s[n])
    decreases |s|
  {
    if |s| > 0 && IsRe2Space(s[0]) then
      var k := Re2SpaceRun(s[1..]);
      assert s[..1 + k] == [s[0]] + s[1..][..k];
      1 + k
    else 0
  }

  /** The pieces of `s` between newlines, as `strings.Split(s, "\n")` gives
    * them; a `(?m)^` in a pattern matches at the start of each piece. */
  function Lines(s: string): (r: seq<string>)
    ensures |r| >= 1
    ensures forall i :: 0 <= i < |r| ==> '\n' !in r[i]
  {
    Split(s, '\n')
  }

  // ---------------------------------------------------- SGR sequences

  const Esc: char := '\U{1B}'

  predicate IsSgrParam(c: char) {
    '0' <= c <= '9' || c == ';'
  }

  /** The number of parameter characters `[0-9;]` that `s` starts with. */
  function ParamRun(s: string): (n: nat)
    ensures n <= |s|
    ensures forall i :: 0 <= i < n ==> IsSgrParam(s[i])
    ensures n < |s| ==> !IsSgrParam(s[n])
    decreases |s|
  {
    if |s| > 0 && IsSgrParam(s[0]) then 1 + ParamRun(s[1..]) else 0
  }

  /** The length of the SGR sequence `ESC [ [0-9;]* m` that `s` starts with,
    * 0 when it does not start with one. */
  function SgrLength(s: string): (n: nat)
    ensures n <= |s|
    ensures n > 0 ==> n >= 3 && s[0] == Esc && s[1] == '[' && s[n - 1] == 'm'
    ensures n > 0 ==> forall i :: 2 <= i < n - 1 ==> IsSgrParam(s[i])
    ensures forall j :: 2 <= j < |s| && s[0] == Esc && s[1] == '[' && s[j] == 'm' ==>
                        (forall i :: 2 <= i < j ==> IsSgrParam(s[i])) ==> n == j + 1
  {
    if |s| >= 2 && s[0] == Esc && s[1] == '[' then
      var k := ParamRun(s[2..]);
      if 2 + k < |s| && s[2 + k] == 'm' then
        assert forall i :: 2 <= i < 2 + k ==> s[i] == s[2..][i - 2];
        3 + k
      else 0
    else 0
  }

  /** Every escape character that a left-to-right scan of `s` meets opens a
    * complete SGR sequence. (An SGR sequence holds no escape after its
    * first character, so these are all the escapes of `s`.) */
  predicate EscapesAreSgr(s: string)
    decreases |s|
  {
    s == []
    || (SgrLength(s) > 0 && EscapesAreSgr(s[SgrLength(s)..]))
    || (SgrLength(s) == 0 && s[0] != Esc && EscapesAreSgr(s[1..]))
  }

  /** Every escape character of `s`, wherever it stands, opens a complete
    * SGR sequence. */
  predicate EveryEscapeSgr(s: string) {
    forall i :: 0 <= i < |s| && s[i] == Esc ==> SgrLength(s[i..]) > 0
  }

  lemma EveryEscapeSgrSuffix(s: string, n: nat)
    requires n <= |s| && EveryEscapeSgr(s)
    ensures EveryEscapeSgr(s[n..])
  {
    forall i | 0 <= i < |s[n..]| && s[n..][i] == Esc
      ensures SgrLength(s[n..][i..]) > 0
    {
      assert s[n..][i..] == s[n + i..];
    }
  }

  /** When every escape character of `s`, wherever it stands, opens a
    * complete SGR sequence, so does every one the scan meets. */
  lemma {:induction false} EveryEscapeOpensSgr(s: string)
    requires EveryEscapeSgr(s)
    ensures EscapesAreSgr(s)
    decreases |s|
  {
    if s != [] {
      assert s[0..] == s;
      var n := if SgrLength(s) > 0 then SgrLength(s) else 1;
      EveryEscapeSgrSuffix(s, n);
      EveryEscapeOpensSgr(s[n..]);
    }
  }

  /** `ansiPattern.ReplaceAllString(s, "")`: scanning left to right, every
    * SGR sequence found is dropped and every other character kept. Text
    * without escape characters passes through unchanged, and when every
    * escape of the text opens a colour or style code, no escape character
    * (so no SGR sequence) is left. */
  function StripSgr(s: string): (r: string)
    ensures |r| <= |s|
    ensures Esc !in s ==> r == s
    ensures EscapesAreSgr(s) ==> Esc !in r
    decreases |s|
  {
    if s == [] then []
    else if SgrLength(s) > 0 then StripSgr(s[SgrLength(s)..])
    else
      assert s[0] in s && [s[0]] + s[1..] == s;
      assert forall c :: c in s[1..] ==> c in s;
      [s[0]] + StripSgr(s[1..])
  }

  /** The inner sequence of the example below is removed whole, leaving the
    * `m` after it. */
  lemma StripSgrInner()
    ensures StripSgr([Esc, '[', '0', 'm', 'm']) == ['m']
  {
    var t := [Esc, '[', '0', 'm', 'm'];
    assert t[2..] == ['0', 'm', 'm'];
    assert ParamRun(['m', 'm']) == 0;
    assert ParamRun(t[2..]) == 1;
    assert SgrLength(t) == 4;
    assert t[4..] == ['m'];
    assert SgrLength(['m']) == 0;
    assert StripSgr(['m']) == ['m'];
  }

  /** A single left-to-right pass: removing one sequence can bring an escape
    * and the text after it together into a new one, which stays. */
  lemma StripSgrSinglePass()
    ensures StripSgr([Esc, '[', Esc, '[', '0', 'm', 'm']) == [Esc, '[', 'm']
    ensures SgrLength([Esc, '[', 'm']) == 3
  {
    var s := [Esc, '[', Esc, '[', '0', 'm', 'm'];
    assert ParamRun(s[2..]) == 0;
    assert SgrLength(s) == 0;
    assert s[1..] == ['[', Esc, '[', '0', 'm', 'm'];
    assert SgrLength(s[1..]) == 0;
    assert s[1..][1..] == [Esc, '[', '0', 'm', 'm'];
    StripSgrInner();
    assert StripSgr(s[1..]) == ['['] + ['m'];
    assert StripSgr(s) == [Esc] + StripSgr(s[1..]);
    assert [Esc, '[', 'm'][2..] == ['m'];
  }
}
