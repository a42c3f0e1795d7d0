/**
 * How the provider's WQL reader delimits the string literal of an
 * `ElementName='…'` filter: the literal runs from the opening quote to the
 * next unescaped quote, a backslash taking the next character literally, and
 * whatever follows that quote is read as more query text.
 */
module Wql {
  import opened Com

  /** The position of the first `'` in `s`, or `|s|` when there is none. */
  function FirstQuote(s: string): (i: nat)
    ensures i <= |s|
    ensures forall j :: 0 <= j < i ==> s[j] != '\''
    ensures i < |s| ==> s[i] == '\''
  {
    if s == [] || s[0] == '\'' then 0 else 1 + FirstQuote(s[1..])
  }

  /** The literal the filter compares ElementName with, and the query text after it. */
  datatype Filter = Filter(literal: string, trailing: string)

  /**
   * The filter of `query`, whose text up to and including the literal's
   * opening quote is `opening`; `None` when `query` does not start so or the
   * literal is never closed.
   */
  function ElementNameFilter(query: string, opening: string): (f: Option<Filter>)
    ensures f.Some? ==> |f.value.literal| + |f.value.trailing| < |query| - |opening|
  {
    if |query| < |opening| || query[..|opening|] != opening then None
    else LiteralAndRest(query[|opening|..])
  }

  /**
   * The text after the opening quote, split at the closing one. A backslash
   * puts the character after it into the literal as it is, so `\'` is a
   * quote inside the literal and `\\` a backslash; `None` when no unescaped
   * quote closes the literal.
   */
  function LiteralAndRest(tail: string): (f: Option<Filter>)
    ensures f.Some? ==> |f.value.literal| + |f.value.trailing| < |tail|
  {
    if tail == [] then None
    else if tail[0] == '\'' then Some(Filter([], tail[1..]))
    else if tail[0] == '\\' then
      if |tail| < 2 then None
      else
        match LiteralAndRest(tail[2..])
        case None => None
        case Some(f) => Some(Filter([tail[1]] + f.literal, f.trailing))
    else
      match LiteralAndRest(tail[1..])
      case None => None
      case Some(f) => Some(Filter([tail[0]] + f.literal, f.trailing))
  }

  lemma {:induction false} FirstQuoteOfClosed(key: string)
    ensures FirstQuote(key + "'") == FirstQuote(key)
  {
    if key != [] && key[0] != '\'' {
      assert (key + "'")[1..] == key[1..] + "'";
      FirstQuoteOfClosed(key[1..]);
    }
  }

  /** Text with no backslash before its first quote is split at that quote. */
  lemma {:induction false} PlainLiteral(tail: string)
    requires '\\' !in tail[..FirstQuote(tail)]
    ensures FirstQuote(tail) < |tail| ==>
      LiteralAndRest(tail) == Some(Filter(tail[..FirstQuote(tail)], tail[FirstQuote(tail) + 1..]))
    ensures FirstQuote(tail) == |tail| ==> LiteralAndRest(tail) == None
  {
    if tail != [] && tail[0] != '\'' {
      var k := FirstQuote(tail[1..]);
      assert tail[0] == tail[..FirstQuote(tail)][0];
      assert tail[1..][..k] == tail[..FirstQuote(tail)][1..];
      PlainLiteral(tail[1..]);
      assert [tail[0]] + tail[1..][..k] == tail[..k + 1];
      if k < |tail[1..]| {
        assert tail[1..][k + 1..] == tail[k + 2..];
      }
    }
  }

  /** After the opening text, the filter is read off the remaining text alone. */
  lemma FilterAfterOpening(opening: string, tail: string)
    ensures ElementNameFilter(opening + tail, opening) == LiteralAndRest(tail)
  {
    assert (opening + tail)[..|opening|] == opening;
    assert (opening + tail)[|opening|..] == tail;
  }

  /**
   * A key spliced between the quotes, with no backslash before its first
   * quote, is compared verbatim when it holds no quote; otherwise the literal
   * stops at its first quote and the rest of the key becomes query text.
   */
  lemma SplicedKeyFilter(opening: string, key: string)
    ensures '\\' !in key && FirstQuote(key) == |key| ==>
      ElementNameFilter(opening + key + "'", opening) == Some(Filter(key, ""))
    ensures '\\' !in key[..FirstQuote(key)] && FirstQuote(key) < |key| ==>
      ElementNameFilter(opening + key + "'", opening) ==
        Some(Filter(key[..FirstQuote(key)], key[FirstQuote(key) + 1..] + "'"))
  {
    var tail := key + "'";
    assert opening + key + "'" == opening + tail;
    FilterAfterOpening(opening, tail);
    FirstQuoteOfClosed(key);
    ClosedKeySlices(key, FirstQuote(key));
    if '\\' !in key[..FirstQuote(key)] {
      PlainLiteral(tail);
    }
  }

  lemma ClosedKeySlices(key: string, i: nat)
    requires i <= |key|
    ensures (key + "'")[..i] == key[..i]
    ensures i == |key| ==> (key + "'")[..i] == key && (key + "'")[i + 1..] == []
    ensures i < |key| ==> (key + "'")[i + 1..] == key[i + 1..] + "'"
  {
  }

  /** A closing quote right after the key ends a literal equal to the key exactly when the key needs no escape. */
  lemma {:induction false} ClosesVerbatimIffPlain(key: string)
    ensures LiteralAndRest(key + "'") == Some(Filter(key, "")) <==> '\'' !in key && '\\' !in key
  {
    if key != [] {
      var s := key + "'";
      assert s[0] == key[0] && s[1..] == key[1..] + "'";
      assert key == [key[0]] + key[1..];
      if key[0] == '\\' {
        assert |s[2..]| == |key| - 1;
      } else if key[0] != '\'' {
        ClosesVerbatimIffPlain(key[1..]);
        assert ('\'' in key <==> '\'' in key[1..]) && ('\\' in key <==> '\\' in key[1..]);
      }
    }
  }

  /** The filter compares ElementName with exactly the key if and only if the key holds no quote and no backslash. */
  lemma SplicedKeyVerbatimIffPlain(opening: string, key: string)
    ensures ElementNameFilter(opening + key + "'", opening) == Some(Filter(key, "")) <==>
      '\'' !in key && '\\' !in key
  {
    assert opening + key + "'" == opening + (key + "'");
    FilterAfterOpening(opening, key + "'");
    ClosesVerbatimIffPlain(key);
  }

  /** An escaped quote between two plain stretches is part of the literal, without its backslash. */
  lemma {:induction false} EscapedQuoteInLiteral(a: string, b: string)
    requires '\'' !in a && '\\' !in a && '\'' !in b && '\\' !in b
    ensures LiteralAndRest(a + "\\'" + b + "'") == Some(Filter(a + "'" + b, ""))
  {
    var t := a + "\\'" + b + "'";
    if a == [] {
      assert t == "\\'" + (b + "'");
      assert t[0] == '\\' && t[1] == '\'' && t[2..] == b + "'";
      ClosesVerbatimIffPlain(b);
      assert a + "'" + b == ['\''] + b;
    } else {
      assert t[0] == a[0] && t[1..] == a[1..] + "\\'" + b + "'";
      EscapedQuoteInLiteral(a[1..], b);
      assert a + "'" + b == [a[0]] + (a[1..] + "'" + b);
    }
  }

  /** The key `O\'Neil` spliced between quotes is compared as `O'Neil`. */
  lemma EscapedQuoteSpliced(opening: string)
    ensures ElementNameFilter(opening + "O\\'Neil" + "'", opening) == Some(Filter("O'Neil", ""))
  {
    assert opening + "O\\'Neil" + "'" == opening + ("O" + "\\'" + "Neil" + "'");
    FilterAfterOpening(opening, "O" + "\\'" + "Neil" + "'");
    assert '\'' !in "O" && '\\' !in "O" && '\'' !in "Neil" && '\\' !in "Neil";
    EscapedQuoteInLiteral("O", "Neil");
    assert "O" + "'" + "Neil" == "O'Neil";
  }
}
