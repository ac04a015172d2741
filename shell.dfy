/** Quoting text for the POSIX shell, as the orchestrator does when it builds
  * the command lines typed into tmux panes and as the pane runner does when it
  * logs the command it is about to run, together with a reader for one shell
  * word that follows the quoting rules of sections 2.2.2 (single quotes) and
  * 2.2.3 (double quotes) of the POSIX Shell Command Language. */
module Shell {
  import opened Text

  /** Every single quote becomes `'"'"'`: close the quoted span, a single
    * quote inside double quotes, reopen. */
  function EscapeSingleQuotes(s: string): (r: string)
    ensures |r| >= |s|
    ensures '\'' !in s ==> r == s
    decreases |s|
  {
    if s == [] then []
    else if s[0] == '\'' then "'\"'\"'" + EscapeSingleQuotes(s[1..])
    else [s[0]] + EscapeSingleQuotes(s[1..])
  }

  /** The orchestrator's `shellQuote`: blank text becomes the empty word
    * `''`, any other text is wrapped in single quotes. */
  function ShellQuote(value: string): (r: string)
    ensures |r| >= 2 && r[0] == '\'' && r[|r| - 1] == '\''
    ensures IsBlank(value) ==> r == "''"
  {
    TrimSpaceBlank(value);
    if TrimSpace(value) == "" then "''" else "'" + EscapeSingleQuotes(value) + "'"
  }

  /** The characters Python's `shlex.quote` leaves unquoted: ASCII letters,
    * digits and `_@%+=:,./-`, none of which the shell treats specially. */
  predicate IsShlexSafe(c: char) {
    ('a' <= c <= 'z') || ('A' <= c <= 'Z') || ('0' <= c <= '9')
    || c == '_' || c == '@' || c == '%' || c == '+' || c == '=' || c == ':'
    || c == ',' || c == '.' || c == '/' || c == '-'
  }

  predicate AllShlexSafe(s: string) {
    forall i :: 0 <= i < |s| ==> IsShlexSafe(s[i])
  }

  /** Python's `shlex.quote`: `''` for the empty string, the text itself when
    * every character is safe, the text in single quotes otherwise. */
  function ShlexQuote(s: string): (r: string)
    ensures r != ""
    ensures s != "" && AllShlexSafe(s) ==> r == s
  {
    if s == "" then "''"
    else if AllShlexSafe(s) then s
    else "'" + EscapeSingleQuotes(s) + "'"
  }

  // --------------------------------------------------------- reading a word

  /** Where the reader is: outside quotes, inside single quotes, or inside
    * double quotes. */
  datatype Mode = Plain | InSingle | InDouble

  /** `c` in front of the text of a word that was read, nothing when the
    * reading failed. */
  function Cons(c: char, rest: Option<string>): Option<string> {
    if rest.Some? then Some([c] + rest.value) else None
  }

  /** `p` in front of the text of a word that was read. */
  function Prepend(p: string, rest: Option<string>): (r: Option<string>)
    ensures rest.Some? <==> r.Some?
    ensures r.Some? ==> r.value == p + rest.value
    decreases |p|
  {
    if p == [] then rest
    else
      var t := Prepend(p[1..], rest);
      assert t.Some? ==> [p[0]] + t.value == p + rest.value by {
        if t.Some? { assert [p[0]] + (p[1..] + rest.value) == p + rest.value; }
      }
      Cons(p[0], t)
  }

  /** The text of the one shell word `q` spells, reading in mode `m`: inside
    * single quotes every character stands for itself up to the closing
    * quote; inside double quotes so does every character but `"`, `\`, `$`
    * and `` ` ``; outside quotes only the safe characters may appear. A word
    * that ends inside quotes, or holds a character that would need the
    * shell's expansion or word splitting, reads as nothing. */
  function Read(q: string, m: Mode): Option<string>
    decreases |q|
  {
    if q == [] then (if m == Plain then Some([]) else None)
    else match m
      case InSingle =>
        if q[0] == '\'' then Read(q[1..], Plain) else Cons(q[0], Read(q[1..], InSingle))
      case InDouble =>
        if q[0] == '"' then Read(q[1..], Plain)
        else if q[0] == '\\' || q[0] == '$' || q[0] == '`' then None
        else Cons(q[0], Read(q[1..], InDouble))
      case Plain =>
        if q[0] == '\'' then Read(q[1..], InSingle)
        else if q[0] == '"' then Read(q[1..], InDouble)
        else if IsShlexSafe(q[0]) then Cons(q[0], Read(q[1..], Plain))
        else None
  }

  /** Inside single quotes, `'"'"'` closes the span, reads a single quote
    * inside double quotes, and reopens it. */
  lemma ReadEscapedQuote(e: string)
    ensures Read("'\"'\"'" + e, InSingle) == Cons('\'', Read(e, InSingle))
  {
    var q1 := ['\''] + e;
    assert q1[1..] == e;
    var q2 := ['"'] + q1;
    assert q2[1..] == q1;
    var q3 := ['\''] + q2;
    assert q3[1..] == q2;
    var q4 := ['"'] + q3;
    assert q4[1..] == q3;
    var q5 := ['\''] + q4;
    assert q5[1..] == q4;
    assert Read(q1, Plain) == Read(e, InSingle);
    assert Read(q2, InDouble) == Read(e, InSingle);
    assert Read(q3, InDouble) == Cons('\'', Read(e, InSingle));
    assert Read(q4, Plain) == Cons('\'', Read(e, InSingle));
    assert Read(q5, InSingle) == Cons('\'', Read(e, InSingle));
    assert q5 == "'\"'\"'" + e;
  }

  /** Inside single quotes, the escape of a text's first character reads
    * back as that character. */
  lemma ReadEscapedHead(v: string, rest: string)
    requires v != []
    ensures Read(EscapeSingleQuotes(v) + "'" + rest, InSingle)
            == Cons(v[0], Read(EscapeSingleQuotes(v[1..]) + "'" + rest, InSingle))
  {
    var e := EscapeSingleQuotes(v[1..]) + "'" + rest;
    if v[0] == '\'' {
      assert EscapeSingleQuotes(v) + "'" + rest == "'\"'\"'" + e;
      ReadEscapedQuote(e);
    } else {
      assert EscapeSingleQuotes(v) + "'" + rest == [v[0]] + e;
      assert ([v[0]] + e)[1..] == e;
    }
  }

  /** Inside single quotes, the escaped text and the closing quote read back
    * as the original text, and reading goes on after them outside quotes. */
  lemma {:induction false} ReadEscaped(v: string, rest: string)
    ensures Read(EscapeSingleQuotes(v) + "'" + rest, InSingle) == Prepend(v, Read(rest, Plain))
    decreases |v|
  {
    if v == [] {
      assert EscapeSingleQuotes(v) + "'" + rest == ['\''] + rest;
      assert (['\''] + rest)[1..] == rest;
    } else {
      ReadEscaped(v[1..], rest);
      ReadEscapedHead(v, rest);
    }
  }

  /** Text wrapped by `'…'` with its single quotes escaped reads back as the
    * text. */
  lemma ReadQuoted(v: string)
    ensures Read("'" + EscapeSingleQuotes(v) + "'", Plain) == Some(v)
  {
    var q := "'" + EscapeSingleQuotes(v) + "'";
    var tail := EscapeSingleQuotes(v) + "'" + "";
    assert q == ['\''] + tail;
    assert q[1..] == tail;
    assert Read(q, Plain) == Read(tail, InSingle);
    ReadEscaped(v, "");
    assert Read("", Plain) == Some([]);
    assert v + [] == v;
  }

  /** Safe characters read as themselves outside quotes. */
  lemma {:induction false} ReadSafe(s: string)
    requires AllShlexSafe(s)
    ensures Read(s, Plain) == Some(s)
    decreases |s|
  {
    if s != [] {
      ReadSafe(s[1..]);
      assert [s[0]] + s[1..] == s;
    }
  }

  /** A shell reads back exactly the text `shellQuote` quoted, except that
    * blank text comes back empty. */
  lemma ShellQuoteReadsBack(value: string)
    ensures Read(ShellQuote(value), Plain) == Some(if TrimSpace(value) == "" then "" else value)
  {
    if TrimSpace(value) == "" {
      assert ShellQuote(value) == "''";
      assert "''"[1..] == "'";
      assert "'"[1..] == [];
    } else {
      ReadQuoted(value);
    }
  }

  /** A shell reads back exactly the text `shlex.quote` quoted. */
  lemma ShlexQuoteReadsBack(s: string)
    ensures Read(ShlexQuote(s), Plain) == Some(s)
  {
    if s == "" {
      assert "''"[1..] == "'";
      assert "'"[1..] == [];
    } else if AllShlexSafe(s) {
      ReadSafe(s);
    } else {
      ReadQuoted(s);
    }
  }
}
