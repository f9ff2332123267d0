/**
 * The command tokenizer of the simulator (`splitString`, src/main.cpp:348-401): a three-state
 * machine that splits a line on a delimiter character, skips runs of the delimiter, and keeps
 * a double-quoted segment together as one token without its quotes.
 */
module Tokenizer {

  /** Between tokens, inside an unquoted word, inside a quoted segment. */
  datatype State = Between | InWord | InString

  /** Everything the loop carries: the state, the token being built and the tokens emitted. */
  datatype Scan = Scan(state: State, token: string, result: seq<string>)

  const QUOTE: char := '"'

  /** Line 353 clears the result; the token starts empty. */
  const Start: Scan := Scan(Between, "", [])

  /** How many tokens the scan has emitted or would emit at the end of the text. */
  function Pending(s: Scan): nat {
    |s.result| + (if s.state != Between then 1 else 0)
  }

  /**
   * One pass of the switch at lines 357-395 over character `c`. Emitting a token does not
   * clear it: the next token overwrites it (lines 364, 369).
   */
  function Step(s: Scan, c: char, d: char): (r: Scan)
    ensures r.result == s.result || r.result == s.result + [s.token]
    ensures r.result != s.result ==> (s.state == InWord && c == d) || (s.state == InString && c == QUOTE)
    ensures s.state == Between && c == d ==> r == s
    ensures Pending(r) <= Pending(s) + 1
    ensures Pending(r) == Pending(s) + 1 <==> s.state == Between && c != d
  {
    match s.state
    case Between =>
      if c == d then s
      else if c == QUOTE then Scan(InString, "", s.result)
      else Scan(InWord, [c], s.result)
    case InWord =>
      if c == d then Scan(Between, s.token, s.result + [s.token])
      else s.(token := s.token + [c])
    case InString =>
      if c == QUOTE then Scan(Between, s.token, s.result + [s.token])
      else s.(token := s.token + [c])
  }

  /** The machine run over `text` from `s`. */
  function Run(s: Scan, text: string, d: char): (r: Scan)
    ensures |s.result| <= |r.result| && r.result[..|s.result|] == s.result
    ensures Pending(r) <= Pending(s) + |text|
    decreases |text|
  {
    if text == [] then s else Run(Step(s, text[0], d), text[1..], d)
  }

  /** Lines 397-400: a word or quote still open at the end of the text is emitted. */
  function Finish(s: Scan): (r: seq<string>)
    ensures |r| == Pending(s) && r[..|s.result|] == s.result
    ensures s.state != Between ==> r[|s.result|] == s.token
  {
    if s.state != Between then s.result + [s.token] else s.result
  }

  /** What `splitString` leaves in its result vector. */
  function Split(text: string, d: char): (r: seq<string>)
    ensures |r| <= |text|
  {
    Finish(Run(Start, text, d))
  }

  /** src/main.cpp:348-401, with the result vector returned rather than filled in. */
  method SplitString(text: string, d: char) returns (result: seq<string>)
    ensures result == Split(text, d)
    ensures text == [] ==> result == []
  {
    var state := Between;
    var token := "";
    result := [];
    var i := 0;
    assert text[0..] == text;
    while i < |text|
      invariant 0 <= i <= |text|
      invariant Run(Scan(state, token, result), text[i..], d) == Run(Start, text, d)
    {
      var c := text[i];
      assert text[i..][0] == c && text[i..][1..] == text[i + 1..];
      match state {
        case Between =>
          if c != d {
            if c == QUOTE {
              state := InString;
              token := "";
            } else {
              state := InWord;
              token := [c];
            }
          }
        case InWord =>
          if c == d {
            result := result + [token];
            state := Between;
          } else {
            token := token + [c];
          }
        case InString =>
          if c == QUOTE {
            result := result + [token];
            state := Between;
          } else {
            token := token + [c];
          }
      }
      i := i + 1;
    }
    if state != Between {
      result := result + [token];
    }
  }

  // A reference definition of splitting on a delimiter, independent of the state machine.

  /** The longest prefix of `t` without the delimiter. */
  function Word(t: string, d: char): (w: string)
    ensures d !in w
  {
    if t == [] || t[0] == d then [] else [t[0]] + Word(t[1..], d)
  }

  /** What follows that prefix: empty, or starting with the delimiter. */
  function Rest(t: string, d: char): (rest: string)
    ensures |rest| <= |t|
    ensures t != [] && t[0] != d ==> |rest| < |t|
    ensures rest == [] || rest[0] == d
  {
    if t == [] || t[0] == d then t else Rest(t[1..], d)
  }

  /** `t` with every delimiter removed. */
  function Without(t: string, d: char): string {
    if t == [] then [] else (if t[0] == d then [] else [t[0]]) + Without(t[1..], d)
  }

  /** The tokens laid end to end. */
  function Flatten(ws: seq<string>): string {
    if ws == [] then [] else ws[0] + Flatten(ws[1..])
  }

  /** The maximal runs of non-delimiter characters of `t`, in order. */
  function Fields(t: string, d: char): seq<string>
    decreases |t|
  {
    if t == [] then []
    else if t[0] == d then Fields(t[1..], d)
    else [Word(t, d)] + Fields(Rest(t, d), d)
  }

  /** A word and what follows it make up the text. */
  lemma {:induction false} WordThenRest(t: string, d: char)
    ensures t == Word(t, d) + Rest(t, d)
    decreases |t|
  {
    if t != [] && t[0] != d {
      WordThenRest(t[1..], d);
      assert t == [t[0]] + t[1..];
    }
  }

  lemma {:induction false} WithoutWord(t: string, d: char)
    ensures Without(t, d) == Word(t, d) + Without(Rest(t, d), d)
    decreases |t|
  {
    if t != [] && t[0] != d {
      WithoutWord(t[1..], d);
      assert Without(t, d) == [t[0]] + Without(t[1..], d);
    }
  }

  /**
   * The fields are the pieces of the text between delimiters: none is empty, none holds the
   * delimiter, and laid end to end they are the text without its delimiters.
   */
  lemma {:induction false} FieldsAreWords(t: string, d: char)
    ensures forall w | w in Fields(t, d) :: |w| > 0 && d !in w
    ensures Flatten(Fields(t, d)) == Without(t, d)
    decreases |t|
  {
    if t == [] {
    } else if t[0] == d {
      FieldsAreWords(t[1..], d);
    } else {
      var w, rest := Word(t, d), Fields(Rest(t, d), d);
      FieldsAreWords(Rest(t, d), d);
      WithoutWord(t, d);
      assert ([w] + rest)[1..] == rest;
      assert Flatten([w] + rest) == w + Flatten(rest);
    }
  }

  // The machine against the reference definition, and its quoting.

  /**
   * Between tokens, a quote-free text closed by a delimiter adds exactly its fields to the
   * result and ends between tokens.
   */
  lemma {:induction false} BetweenYieldsFields(tok: string, r: seq<string>, t: string, d: char)
    requires QUOTE !in t
    ensures Run(Scan(Between, tok, r), t + [d], d).state == Between
    ensures Run(Scan(Between, tok, r), t + [d], d).result == r + Fields(t, d)
    decreases |t|, 1
  {
    if t == [] {
      assert t + [d] == [d];
    } else if t[0] == d {
      assert (t + [d])[0] == d && (t + [d])[1..] == t[1..] + [d];
      BetweenYieldsFields(tok, r, t[1..], d);
    } else {
      WordStartsFields(tok, r, t, d);
    }
  }

  /** Between tokens, a quote-free text that starts with a word. */
  lemma {:induction false} WordStartsFields(tok: string, r: seq<string>, t: string, d: char)
    requires QUOTE !in t && t != [] && t[0] != d
    ensures Run(Scan(Between, tok, r), t + [d], d).state == Between
    ensures Run(Scan(Between, tok, r), t + [d], d).result == r + Fields(t, d)
    decreases |t|, 0
  {
    var s := Scan(Between, tok, r);
    assert (t + [d])[0] == t[0] && (t + [d])[1..] == t[1..] + [d];
    assert Run(s, t + [d], d) == Run(Scan(InWord, [t[0]], r), t[1..] + [d], d);
    WordYieldsFields([t[0]], r, t[1..], d);
    assert Word(t, d) == [t[0]] + Word(t[1..], d) && Rest(t, d) == Rest(t[1..], d);
    assert Fields(t, d) == [Word(t, d)] + Fields(Rest(t, d), d);
  }

  /**
   * Inside a word, a quote-free text closed by a delimiter completes the word, adds the fields
   * after it and ends between tokens.
   */
  lemma {:induction false} WordYieldsFields(tok: string, r: seq<string>, t: string, d: char)
    requires QUOTE !in t
    ensures Run(Scan(InWord, tok, r), t + [d], d).state == Between
    ensures Run(Scan(InWord, tok, r), t + [d], d).result == r + [tok + Word(t, d)] + Fields(Rest(t, d), d)
    decreases |t|, 2
  {
    if t == [] {
      assert t + [d] == [d];
      assert tok + [] == tok;
    } else {
      assert (t + [d])[0] == t[0] && (t + [d])[1..] == t[1..] + [d];
      if t[0] == d {
        BetweenYieldsFields(tok, r + [tok], t[1..], d);
        assert tok + Word(t, d) == tok;
      } else {
        WordYieldsFields(tok + [t[0]], r, t[1..], d);
        assert tok + Word(t, d) == tok + [t[0]] + Word(t[1..], d);
      }
    }
  }

  /** Without a quote the machine never enters a quoted segment. */
  lemma {:induction false} NoQuoteNoString(s: Scan, t: string, d: char)
    requires QUOTE !in t && s.state != InString
    ensures Run(s, t, d).state != InString
    decreases |t|
  {
    if t != [] {
      NoQuoteNoString(Step(s, t[0], d), t[1..], d);
    }
  }

  /** Lines 397-400 emit what one more delimiter would emit, when no quote is open. */
  lemma FinishIsDelimiter(s: Scan, t: string, d: char)
    requires QUOTE !in t && s.state != InString
    ensures Finish(Run(s, t, d)) == Run(s, t + [d], d).result
  {
    RunAppend(s, t, [d], d);
    NoQuoteNoString(s, t, d);
  }

  /**
   * Without quotes in the text, the tokens are exactly the fields: runs of the delimiter
   * produce no empty token, no token holds the delimiter, and an unfinished last word is kept.
   */
  lemma SplitUnquoted(text: string, d: char)
    requires QUOTE !in text
    ensures Split(text, d) == Fields(text, d)
  {
    FinishIsDelimiter(Start, text, d);
    BetweenYieldsFields("", [], text, d);
  }

  lemma {:induction false} RunAppend(s: Scan, a: string, b: string, d: char)
    ensures Run(s, a + b, d) == Run(Run(s, a, d), b, d)
    decreases |a|
  {
    if a == [] {
      assert a + b == b;
    } else {
      assert (a + b)[0] == a[0] && (a + b)[1..] == a[1..] + b;
      RunAppend(Step(s, a[0], d), a[1..], b, d);
    }
  }

  /** Inside a quote every character but the quote joins the token, the delimiter included. */
  lemma {:induction false} QuotedRun(tok: string, r: seq<string>, q: string, d: char)
    requires QUOTE !in q
    ensures Run(Scan(InString, tok, r), q, d) == Scan(InString, tok + q, r)
    decreases |q|
  {
    if q == [] {
      assert tok + q == tok;
    } else {
      QuotedRun(tok + [q[0]], r, q[1..], d);
      assert tok + [q[0]] + q[1..] == tok + q;
    }
  }

  /**
   * A quoted segment met between tokens becomes one token, its contents without the quotes
   * (possibly empty, possibly holding the delimiter); the scan then goes on between tokens.
   */
  lemma {:induction false} QuotedSegment(tok: string, r: seq<string>, q: string, rest: string, d: char)
    requires d != QUOTE && QUOTE !in q
    ensures Run(Scan(Between, tok, r), [QUOTE] + q + [QUOTE] + rest, d) == Run(Scan(Between, q, r + [q]), rest, d)
  {
    var text := [QUOTE] + q + [QUOTE] + rest;
    assert text[0] == QUOTE && text[1..] == q + ([QUOTE] + rest);
    RunAppend(Scan(InString, "", r), q, [QUOTE] + rest, d);
    QuotedRun("", r, q, d);
    assert "" + q == q;
    assert ([QUOTE] + rest)[1..] == rest;
  }

  /** A quote left open at the end of the text still yields its token. */
  lemma {:induction false} UnterminatedQuote(tok: string, r: seq<string>, q: string, d: char)
    requires d != QUOTE && QUOTE !in q
    ensures Finish(Run(Scan(Between, tok, r), [QUOTE] + q, d)) == r + [q]
  {
    assert ([QUOTE] + q)[1..] == q;
    QuotedRun("", r, q, d);
    assert "" + q == q;
  }

  /**
   * Unquoted words closed by a delimiter, then a quoted segment: the words' fields, then the
   * segment as one token; the scan goes on between tokens. Applied in turn, this covers any
   * line of words and quoted segments, such as `set 1024 s 0 "a b"`.
   */
  lemma FieldsThenQuoted(tok: string, r: seq<string>, t: string, q: string, rest: string, d: char)
    requires d != QUOTE && QUOTE !in t && QUOTE !in q
    ensures Run(Scan(Between, tok, r), t + [d] + [QUOTE] + q + [QUOTE] + rest, d) ==
      Run(Scan(Between, q, r + Fields(t, d) + [q]), rest, d)
  {
    var s0 := Scan(Between, tok, r);
    assert t + [d] + [QUOTE] + q + [QUOTE] + rest == (t + [d]) + ([QUOTE] + q + [QUOTE] + rest);
    RunAppend(s0, t + [d], [QUOTE] + q + [QUOTE] + rest, d);
    BetweenYieldsFields(tok, r, t, d);
    var s1 := Run(s0, t + [d], d);
    QuotedSegment(s1.token, s1.result, q, rest, d);
  }

  /** A line that ends in a quoted segment after its words: `set 1024 s 0 "a b"` splits into five tokens. */
  lemma SplitWordsThenQuoted(t: string, q: string, d: char)
    requires d != QUOTE && QUOTE !in t && QUOTE !in q
    ensures Split(t + [d] + [QUOTE] + q + [QUOTE], d) == Fields(t, d) + [q]
  {
    var line := t + [d] + [QUOTE] + q + [QUOTE];
    assert line + [] == line;
    FieldsThenQuoted("", [], t, q, [], d);
    assert Run(Start, line, d) == Scan(Between, q, [] + Fields(t, d) + [q]);
    assert [] + Fields(t, d) + [q] == Fields(t, d) + [q];
  }

  /** Inside a word every character but the delimiter joins the token, the quote included. */
  lemma {:induction false} WordTakesQuotes(tok: string, r: seq<string>, w: string, d: char)
    requires d !in w
    ensures Run(Scan(InWord, tok, r), w, d) == Scan(InWord, tok + w, r)
    decreases |w|
  {
    if w == [] {
      assert tok + w == tok;
    } else {
      WordTakesQuotes(tok + [w[0]], r, w[1..], d);
      assert tok + [w[0]] + w[1..] == tok + w;
    }
  }

  /**
   * A quote only opens a segment at the start of a token: a word such as `ab"c` followed by
   * the delimiter is emitted whole, quote included, and the scan is back between tokens.
   */
  lemma QuoteInsideWord(tok: string, r: seq<string>, c: char, w: string, d: char)
    requires c != d && c != QUOTE && d !in w
    ensures Run(Scan(Between, tok, r), [c] + w + [d], d) == Scan(Between, [c] + w, r + [[c] + w])
  {
    assert ([c] + w + [d])[0] == c && ([c] + w + [d])[1..] == w + [d];
    RunAppend(Scan(InWord, [c], r), w, [d], d);
    WordTakesQuotes([c], r, w, d);
  }
}
