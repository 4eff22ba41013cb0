/**
 * HTML text escaping as the page scripts obtain it: assigning a string to a
 * detached element's `textContent` and reading back `innerHTML`, which
 * serialises a text node by replacing `&`, `<`, `>` and the no-break space with
 * character references (the HTML standard's "escaping a string" outside attribute mode).
 */
module Html {

  const NBSP: char := '\U{A0}'

  /** The serialisation of one character of a text node. */
  function EscapeChar(c: char): string {
    if c == '&' then "&amp;"
    else if c == '<' then "&lt;"
    else if c == '>' then "&gt;"
    else if c == NBSP then "&nbsp;"
    else [c]
  }

  /** `innerHTML` of an element whose only child is a text node holding `s`. */
  function EscapeText(s: string): (r: string)
    ensures '<' !in r && '>' !in r && NBSP !in r
    ensures |r| >= |s|
  {
    if s == [] then [] else EscapeChar(s[0]) + EscapeText(s[1..])
  }

  /**
   * Decodes the character references the escapers here produce (`&amp;`,
   * `&lt;`, `&gt;`, `&nbsp;`, `&quot;`, `&apos;`, `&#39;`); every other
   * character stands for itself.
   */
  function UnescapeText(s: string): string
    decreases |s|
  {
    if s == [] then []
    else if |s| >= 5 && s[..5] == "&amp;" then ['&'] + UnescapeText(s[5..])
    else if |s| >= 4 && s[..4] == "&lt;" then ['<'] + UnescapeText(s[4..])
    else if |s| >= 4 && s[..4] == "&gt;" then ['>'] + UnescapeText(s[4..])
    else if |s| >= 6 && s[..6] == "&nbsp;" then [NBSP] + UnescapeText(s[6..])
    else if |s| >= 6 && s[..6] == "&quot;" then ['"'] + UnescapeText(s[6..])
    else if |s| >= 6 && s[..6] == "&apos;" then ['\''] + UnescapeText(s[6..])
    else if |s| >= 5 && s[..5] == "&#39;" then ['\''] + UnescapeText(s[5..])
    else [s[0]] + UnescapeText(s[1..])
  }

  /** Decoding one escaped character in front of any text gives the character back. */
  lemma UnescapeChar(c: char, rest: string)
    ensures UnescapeText(EscapeChar(c) + rest) == [c] + UnescapeText(rest)
  {
    var e := EscapeChar(c) + rest;
    if c == '&' {
      assert e[..5] == "&amp;" && e[5..] == rest;
    } else if c == '<' {
      assert e[1] == 'l' && e[..4] == "&lt;" && e[4..] == rest;
    } else if c == '>' {
      assert e[1] == 'g' && e[..4] == "&gt;" && e[4..] == rest;
    } else if c == NBSP {
      assert e[1] == 'n' && e[..6] == "&nbsp;" && e[6..] == rest;
    } else {
      UnescapeOther(c, rest);
    }
  }

  /** Escaping loses nothing: the displayed text is exactly the escaped string. */
  lemma {:induction false} UnescapeEscape(s: string)
    ensures UnescapeText(EscapeText(s)) == s
    decreases |s|
  {
    if s != [] {
      UnescapeChar(s[0], EscapeText(s[1..]));
      UnescapeEscape(s[1..]);
    }
  }

  /** `EscapeText` adds no double quote. */
  lemma {:induction false} EscapeKeepsQuoteFree(s: string)
    requires '"' !in s
    ensures '"' !in EscapeText(s)
    decreases |s|
  {
    if s != [] {
      assert '"' !in s[1..];
      EscapeKeepsQuoteFree(s[1..]);
      assert '"' !in EscapeChar(s[0]);
    }
  }

  /** Position of the first double quote in `s`, or |s| when there is none. */
  function QuoteEnd(s: string): (k: nat)
    ensures k <= |s| && (k < |s| ==> s[k] == '"')
    ensures forall i :: 0 <= i < k ==> s[i] != '"'
  {
    if s == [] || s[0] == '"' then 0 else 1 + QuoteEnd(s[1..])
  }

  /**
   * The value a browser reads back (through `dataset` or `getAttribute`) from
   * an attribute written as `name="raw"`: the text up to the first double
   * quote, character references decoded.
   */
  function ReadQuotedAttribute(raw: string): string {
    UnescapeText(raw[..QuoteEnd(raw)])
  }

  /** A double quote survives `EscapeText`, so a value holding one is cut short when read back. */
  lemma QuoteCutsAttribute()
    ensures EscapeText("a\"b") == "a\"b"
    ensures ReadQuotedAttribute(EscapeText("a\"b")) == "a"
  {
    assert EscapeText("b") == "b";
    assert EscapeText("\"b") == "\"b";
    assert "a\"b"[..1] == "a";
    assert UnescapeText("a") == "a";
  }

  /** One character of an attribute value: `EscapeChar`, with the double quote as `&quot;` as well. */
  function EscapeAttributeChar(c: char): string {
    if c == '"' then "&quot;" else EscapeChar(c)
  }

  /** `EscapeText` that also escapes the double quote, safe inside a double-quoted attribute. */
  function EscapeAttribute(s: string): (r: string)
    ensures '"' !in r && '<' !in r && '>' !in r
  {
    if s == [] then [] else EscapeAttributeChar(s[0]) + EscapeAttribute(s[1..])
  }

  /** Decoding one attribute-escaped character in front of any text gives the character back. */
  lemma UnescapeAttributeChar(c: char, rest: string)
    ensures UnescapeText(EscapeAttributeChar(c) + rest) == [c] + UnescapeText(rest)
  {
    if c == '"' {
      var e := EscapeAttributeChar(c) + rest;
      assert e[1] == 'q' && e[..6] == "&quot;" && e[6..] == rest;
    } else {
      UnescapeChar(c, rest);
    }
  }

  /** The numeric reference `&#39;` decodes to an apostrophe in front of any text. */
  lemma UnescapeNumericApostrophe(rest: string)
    ensures UnescapeText("&#39;" + rest) == ['\''] + UnescapeText(rest)
  {
    var e := "&#39;" + rest;
    assert e[1] == '#' && e[..5] == "&#39;" && e[5..] == rest;
  }

  /** The named reference `&apos;` decodes to an apostrophe in front of any text. */
  lemma UnescapeNamedApostrophe(rest: string)
    ensures UnescapeText("&apos;" + rest) == ['\''] + UnescapeText(rest)
  {
    var e := "&apos;" + rest;
    assert e[1] == 'a' && e[2] == 'p' && e[..6] == "&apos;" && e[6..] == rest;
  }

  /** Any character but `&` decodes to itself in front of any text. */
  lemma UnescapeOther(c: char, rest: string)
    requires c != '&'
    ensures UnescapeText([c] + rest) == [c] + UnescapeText(rest)
  {
    var e := [c] + rest;
    assert e[0] == c && e[1..] == rest;
    assert |e| >= 4 ==> e[..4][0] == c;
    assert |e| >= 5 ==> e[..5][0] == c;
    assert |e| >= 6 ==> e[..6][0] == c;
  }

  /** Written with `EscapeAttribute`, every value is read back exactly. */
  lemma {:induction false} AttributeRoundTrip(s: string)
    ensures ReadQuotedAttribute(EscapeAttribute(s)) == s
    decreases |s|
  {
    var r := EscapeAttribute(s);
    assert QuoteEnd(r) == |r|;
    assert r[..|r|] == r;
    AttributeUnescape(s);
  }

  /** `UnescapeText` undoes `EscapeAttribute`. */
  lemma {:induction false} AttributeUnescape(s: string)
    ensures UnescapeText(EscapeAttribute(s)) == s
    decreases |s|
  {
    if s != [] {
      UnescapeAttributeChar(s[0], EscapeAttribute(s[1..]));
      AttributeUnescape(s[1..]);
    }
  }

  /**
   * `EscapeText(Or(s, fallback))` for a fallback that needs no escaping: the
   * text escaped, or the fallback as it is when the text is empty.
   */
  function EscapeTextOr(s: string, fallback: string): string {
    if s != [] then EscapeText(s) else fallback
  }

  /** The displayed text is the text itself, or the fallback when it is empty. */
  lemma UnescapeTextOr(s: string, fallback: string)
    requires '&' !in fallback
    ensures UnescapeText(EscapeTextOr(s, fallback)) == if s != [] then s else fallback
  {
    if s != [] {
      UnescapeEscape(s);
    } else {
      UnescapePlain(fallback);
    }
  }

  /** `EscapeAttribute(Or(s, fallback))` for a fallback that needs no escaping. */
  function EscapeAttributeOr(s: string, fallback: string): string {
    if s != [] then EscapeAttribute(s) else fallback
  }

  /** The value read back is the text itself, or the fallback when it is empty. */
  lemma ReadAttributeOr(s: string, fallback: string)
    requires '&' !in fallback && '"' !in fallback
    ensures ReadQuotedAttribute(EscapeAttributeOr(s, fallback)) == if s != [] then s else fallback
  {
    if s != [] {
      AttributeRoundTrip(s);
    } else {
      assert QuoteEnd(fallback) == |fallback|;
      assert fallback[..|fallback|] == fallback;
      UnescapePlain(fallback);
    }
  }

  /** Text without `&` holds no character reference and decodes to itself. */
  lemma {:induction false} UnescapePlain(s: string)
    requires '&' !in s
    ensures UnescapeText(s) == s
    decreases |s|
  {
    if s != [] {
      assert s[0] != '&';
      assert |s| >= 4 ==> s[..4][0] == s[0];
      assert |s| >= 5 ==> s[..5][0] == s[0];
      assert |s| >= 6 ==> s[..6][0] == s[0];
      assert '&' !in s[1..];
      UnescapePlain(s[1..]);
      assert s == [s[0]] + s[1..];
    }
  }

  /**
   * The text of a single-quoted JavaScript string literal in an inline event
   * handler, when `s` follows its opening quote: everything up to the first
   * apostrophe, which closes the literal.
   */
  function ScriptLiteral(s: string): (r: string)
    ensures |r| <= |s| && r == s[..|r|] && '\'' !in r
    ensures |r| < |s| ==> s[|r|] == '\''
  {
    if s == [] || s[0] == '\'' then [] else [s[0]] + ScriptLiteral(s[1..])
  }
}
