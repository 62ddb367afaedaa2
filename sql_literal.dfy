/**
 * How a MySQL server reads a single-quoted string literal with backslash
 * escapes enabled. It is the reading side against which the escaping done
 * by both scripts is checked: whatever value is escaped and then quoted is
 * read back unchanged, and the literal ends exactly at the closing quote the
 * script writes.
 */
module SqlLiteral {
  import opened Wrappers
  import opened Php

  /** What the two-character sequence backslash-`c` stands for inside a literal. */
  function Unescape(c: char): string {
    match c
    case '0' => "\0"
    case 'b' => "\U{8}"
    case 'n' => "\n"
    case 'r' => "\r"
    case 't' => "\t"
    case 'Z' => "\U{1A}"
    case '%' => "\\%"
    case '_' => "\\_"
    case _ => [c]
  }

  function Prepend(p: string, r: Option<(string, string)>): Option<(string, string)> {
    match r
    case None => None
    case Some((v, rest)) => Some((p + v, rest))
  }

  /**
   * Reads a literal whose opening quote has already been consumed: the value
   * it denotes and the text after its closing quote, or None when the text
   * ends inside the literal. A doubled quote stands for one quote.
   */
  function ReadLiteral(s: string): (r: Option<(string, string)>)
    ensures r.Some? ==> |r.value.1| < |s|
    decreases |s|
  {
    if s == [] then None
    else if s[0] == '\'' then
      if |s| > 1 && s[1] == '\'' then Prepend("'", ReadLiteral(s[2..])) else Some(("", s[1..]))
    else if s[0] == '\\' then
      if |s| == 1 then None else Prepend(Unescape(s[1]), ReadLiteral(s[2..]))
    else
      Prepend([s[0]], ReadLiteral(s[1..]))
  }

  /**
   * `addslashes` is safe for a quoted literal: the escaped value followed by
   * a quote reads back as the original value, and reading resumes right after
   * that quote (provided the next character is not a second quote).
   */
  lemma {:induction false} ReadAddSlashes(v: string, rest: string)
    requires rest == [] || rest[0] != '\''
    ensures ReadLiteral(AddSlashes(v) + "'" + rest) == Some((v, rest))
  {
    var s := AddSlashes(v) + "'" + rest;
    if v == [] {
      assert s == "'" + rest;
    } else {
      ReadAddSlashes(v[1..], rest);
      var c := v[0];
      var escaped := AddSlashes(v[1..]);
      var tail := escaped + "'" + rest;
      var head := if c == '\0' then ['\\', '0'] else if SlashedByAddSlashes(c) then ['\\', c] else [c];
      assert AddSlashes(v) == head + escaped;
      AppendAssoc(head, escaped + "'", rest);
      AppendAssoc(head, escaped, "'");
      assert s == head + tail;
      if c == '\0' {
        ReadEscaped('0', tail);
      } else if SlashedByAddSlashes(c) {
        ReadEscaped(c, tail);
      } else {
        ReadPlain(c, tail);
      }
      assert [c] + v[1..] == v;
    }
  }

  /** An ordinary character stands for itself. */
  lemma ReadPlain(c: char, tail: string)
    requires c != '\'' && c != '\\'
    ensures ReadLiteral([c] + tail) == Prepend([c], ReadLiteral(tail))
  {
    assert ([c] + tail)[1..] == tail;
  }

  /** A backslash and the character after it stand for what `Unescape` gives. */
  lemma ReadEscaped(c: char, tail: string)
    ensures ReadLiteral(['\\', c] + tail) == Prepend(Unescape(c), ReadLiteral(tail))
  {
    assert (['\\', c] + tail)[2..] == tail;
  }

  /** The same for `addcslashes($v, "'\\")`, which escapes only the quote and the backslash. */
  lemma {:induction false} ReadAddCSlashes(v: string, rest: string)
    requires rest == [] || rest[0] != '\''
    ensures ReadLiteral(AddCSlashesQuoteBackslash(v) + "'" + rest) == Some((v, rest))
  {
    var s := AddCSlashesQuoteBackslash(v) + "'" + rest;
    if v == [] {
      assert s == "'" + rest;
    } else {
      ReadAddCSlashes(v[1..], rest);
      var c := v[0];
      var escaped := AddCSlashesQuoteBackslash(v[1..]);
      var tail := escaped + "'" + rest;
      var head := if c == '\'' || c == '\\' then ['\\', c] else [c];
      assert AddCSlashesQuoteBackslash(v) == head + escaped;
      AppendAssoc(head, escaped + "'", rest);
      AppendAssoc(head, escaped, "'");
      assert s == head + tail;
      if c == '\'' || c == '\\' {
        ReadEscaped(c, tail);
      } else {
        ReadPlain(c, tail);
      }
      assert [c] + v[1..] == v;
    }
  }

  /** `addslashes` works character by character, so it distributes over concatenation. */
  lemma {:induction false} AddSlashesConcat(a: string, b: string)
    ensures AddSlashes(a + b) == AddSlashes(a) + AddSlashes(b)
  {
    if a != [] {
      AddSlashesConcat(a[1..], b);
      assert (a + b)[1..] == a[1..] + b;
    } else {
      assert a + b == b;
    }
  }

  /** A string without any of the four special characters is left as it is. */
  lemma {:induction false} AddSlashesPlain(s: string)
    requires forall i :: 0 <= i < |s| ==> !SlashedByAddSlashes(s[i])
    ensures AddSlashes(s) == s
  {
    if s != [] {
      AddSlashesPlain(s[1..]);
    }
  }

  /**
   * A quote between two runs of ordinary text gets exactly one backslash, as
   * in `O'Brien` becoming `O\'Brien`; the text around it is unchanged.
   */
  lemma AddSlashesQuote(before: string, after: string)
    requires forall i :: 0 <= i < |before| ==> !SlashedByAddSlashes(before[i])
    requires forall i :: 0 <= i < |after| ==> !SlashedByAddSlashes(after[i])
    ensures AddSlashes(before + "'" + after) == before + "\\'" + after
  {
    AddSlashesPlain(before);
    AddSlashesPlain(after);
    AddSlashesConcat(before + "'", after);
    AddSlashesConcat(before, "'");
    assert AddSlashes("'") == "\\'";
  }
}
