/**
 Delimited identifiers as section 5.2 of ISO/IEC 9075-2 writes them: quotes around the text and every quote
 inside doubled. The same loop prints schema names, view names and JSON path keys.
 */
module Quoting {
  import opened Prelude

  function Escaped(c: char): string {
    if c == '"' then "\"\"" else [c]
  }

  function Doubled(s: string): string {
    if s == [] then [] else Escaped(s[0]) + Doubled(s[1..])
  }

  function Quoted(s: string): string {
    "\"" + Doubled(s) + "\""
  }

  /** `quote_identifier` and `quote_key`. */
  method Quote(identifier: string) returns (quoted: string)
    ensures quoted == Quoted(identifier)
  {
    quoted := "\"";
    for i := 0 to |identifier|
      invariant Quoted(identifier) == quoted + (Doubled(identifier[i..]) + "\"")
    {
      FirstEscaped(identifier[i..]);
      ghost var before := quoted;
      if identifier[i] == '"' {
        quoted := quoted + "\"";
      }
      quoted := quoted + [identifier[i]];
      assert identifier[i..][1..] == identifier[i + 1..];
      assert quoted == before + Escaped(identifier[i]);
      Assoc(before, Escaped(identifier[i]), Doubled(identifier[i + 1..]) + "\"");
    }
    quoted := quoted + "\"";
  }

  /** Reads up to the first quote that is not doubled: the text before it, and what follows it. */
  function ReadDoubled(text: string): Option<(string, string)> {
    if text == [] then None
    else if text[0] == '"' && !(|text| > 1 && text[1] == '"') then Some(("", text[1..]))
    else
      match ReadDoubled(text[if text[0] == '"' then 2 else 1..])
      case None => None
      case Some((s, rest)) => Some(([text[0]] + s, rest))
  }

  /** Reads one delimited identifier from the front of `text`. */
  function ReadQuoted(text: string): Option<(string, string)> {
    if text == [] || text[0] != '"' then None else ReadDoubled(text[1..])
  }

  /** `text` is `s` with its quotes doubled, a closing quote and `rest`. */
  predicate Closes(text: string, s: string, rest: string) {
    text == Doubled(s) + "\"" + rest && (rest == [] || rest[0] != '"')
  }

  lemma LoneQuote(text: string, s: string, rest: string)
    requires text != [] && text[0] == '"' && (|text| > 1 ==> text[1] != '"')
    ensures Closes(text, s, rest) <==> s == [] && rest == text[1..]
  {
    if s == [] {
      assert Doubled(s) + "\"" + rest == "\"" + rest;
      assert text == "\"" + text[1..];
    } else {
      assert (Doubled(s) + "\"" + rest)[0] == s[0];
      if s[0] == '"' {
        assert (Doubled(s) + "\"" + rest)[1] == '"';
      }
    }
  }

  lemma DoubledQuote(text: string, s: string, rest: string)
    requires |text| > 1 && text[0] == text[1] == '"'
    ensures Closes(text, s, rest) <==> s != [] && s[0] == '"' && Closes(text[2..], s[1..], rest)
  {
    assert text == "\"\"" + text[2..];
    if s == [] {
      assert Doubled(s) + "\"" + rest == "\"" + rest;
    } else if s[0] == '"' {
      assert Doubled(s) + "\"" + rest == "\"\"" + (Doubled(s[1..]) + "\"" + rest);
    } else {
      assert (Doubled(s) + "\"" + rest)[0] == s[0];
    }
  }

  lemma PlainChar(text: string, s: string, rest: string)
    requires text != [] && text[0] != '"'
    ensures Closes(text, s, rest) <==> s != [] && s[0] == text[0] && Closes(text[1..], s[1..], rest)
  {
    assert text == [text[0]] + text[1..];
    if s == [] {
      assert (Doubled(s) + "\"" + rest)[0] == '"';
    } else {
      assert (Doubled(s) + "\"" + rest)[0] == s[0];
      if s[0] != '"' {
        assert Doubled(s) + "\"" + rest == [s[0]] + (Doubled(s[1..]) + "\"" + rest);
      }
    }
  }

  lemma {:induction false} ReadDoubledIff(text: string, s: string, rest: string)
    ensures ReadDoubled(text) == Some((s, rest)) <==> Closes(text, s, rest)
    decreases text
  {
    if text == [] {
    } else {
      if text[0] != '"' {
        PlainChar(text, s, rest);
      } else if |text| > 1 && text[1] == '"' {
        DoubledQuote(text, s, rest);
      } else {
        LoneQuote(text, s, rest);
        return;
      }
      var tail := text[if text[0] == '"' then 2 else 1..];
      var read := ReadDoubled(tail);
      if s != [] {
        ReadDoubledIff(tail, s[1..], rest);
        assert s == [s[0]] + s[1..];
      }
      assert read.Some? ==> ([text[0]] + read.value.0)[1..] == read.value.0;
    }
  }

  /**
   Decoding and printing are inverse: `text` begins with the identifier `s` and goes on with `rest` exactly
   when it is the quoted `s` followed by a `rest` that does not begin with another quote.
   */
  lemma ReadQuotedIff(text: string, s: string, rest: string)
    ensures ReadQuoted(text) == Some((s, rest)) <==> text == Quoted(s) + rest && (rest == [] || rest[0] != '"')
  {
    assert Quoted(s) + rest == "\"" + (Doubled(s) + "\"" + rest);
    if text != [] && text[0] == '"' {
      ReadDoubledIff(text[1..], s, rest);
      assert text == "\"" + text[1..];
    }
  }

  /** One quoted identifier begins another exactly when they are equal or the other goes on with a quote. */
  lemma PrefixIff(a: string, b: string)
    ensures Quoted(a) <= Quoted(b) <==> a == b || a + "\"" <= b
  {
    DoubledPrefixIff(a, b);
    var x, y := Doubled(a) + "\"", Doubled(b) + "\"";
    assert Quoted(a) == "\"" + x && Quoted(b) == "\"" + y;
    PrependPrefix("\"", x, y, Quoted(a), Quoted(b));
  }

  /** The code is not prefix-free: every quoted identifier begins that of the same one followed by a quote. */
  lemma NotPrefixFree(a: string, s: string)
    ensures Quoted(a) < Quoted(a + "\"" + s)
  {
    PrefixIff(a, a + "\"" + s);
    QuotedInjective(a + "\"" + s, a);
  }

  lemma QuotedInjective(a: string, b: string)
    ensures Quoted(a) == Quoted(b) <==> a == b
  {
    assert Quoted(a) + [] == Quoted(a) && Quoted(b) + [] == Quoted(b);
    ReadQuotedIff(Quoted(a), a, []);
    ReadQuotedIff(Quoted(a), b, []);
  }

  lemma PrependPrefix(p: string, x: string, y: string, px: string, py: string)
    requires px == p + x && py == p + y
    ensures px <= py <==> x <= y
  {
    if px <= py {
      assert x == px[|p|..] == py[|p|..][..|x|];
    }
    if x <= y {
      assert py[..|px|] == px;
    }
  }

  lemma {:induction false} DoubledPrefixIff(a: string, b: string)
    ensures Doubled(a) + "\"" <= Doubled(b) + "\"" <==> a == b || a + "\"" <= b
    decreases a
  {
    if a == [] {
      assert Doubled(a) + "\"" == "\"" && a + "\"" == "\"";
      if b != [] {
        FirstEscaped(b);
      }
    } else if b != [] && a[0] == b[0] {
      SameHead(a, b);
      DoubledPrefixIff(a[1..], b[1..]);
    } else {
      FirstEscaped(a);
      assert (a + "\"")[0] == a[0];
      if b != [] {
        FirstEscaped(b);
      }
    }
  }

  lemma SameHead(a: string, b: string)
    requires a != [] && b != [] && a[0] == b[0]
    ensures Doubled(a) + "\"" <= Doubled(b) + "\"" <==> Doubled(a[1..]) + "\"" <= Doubled(b[1..]) + "\""
    ensures a + "\"" <= b <==> a[1..] + "\"" <= b[1..]
    ensures a == b <==> a[1..] == b[1..]
  {
    FirstEscaped(a);
    FirstEscaped(b);
    PrependPrefix(
      Escaped(a[0]), Doubled(a[1..]) + "\"", Doubled(b[1..]) + "\"", Doubled(a) + "\"", Doubled(b) + "\"");
    ConsPrefix(a, b);
  }

  lemma ConsPrefix(a: string, b: string)
    requires a != [] && b != [] && a[0] == b[0]
    ensures a + "\"" <= b <==> a[1..] + "\"" <= b[1..]
    ensures a == b <==> a[1..] == b[1..]
  {
    assert a == [a[0]] + a[1..] && b == [b[0]] + b[1..];
    PrependPrefix([a[0]], a[1..] + "\"", b[1..], a + "\"", b);
  }

  lemma FirstEscaped(s: string)
    requires s != []
    ensures Doubled(s) + "\"" == Escaped(s[0]) + (Doubled(s[1..]) + "\"")
    ensures (Doubled(s) + "\"")[0] == s[0]
  {
    Assoc(Escaped(s[0]), Doubled(s[1..]), "\"");
  }
}
