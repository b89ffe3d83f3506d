/**
 The quoting of generated SQL. A quoted text is one literal token that unquotes to the
 text; a `do` block under the chosen delimiter is one body token that holds the body.
 */
module SqlQuoting {
  import opened Wrappers
  import opened SqlTokens
  import opened Texts

  // ---- literals ----

  function Doubled(s: string): string {
    if s == [] then [] else DoubledChar(s[0]) + Doubled(s[1..])
  }

  function Undoubled(s: string): string {
    if s == [] then []
    else if StartsAt(s, "''", 0) then "'" + Undoubled(s[2..])
    else [s[0]] + Undoubled(s[1..])
  }

  function Quote(s: string): string {
    "'" + Doubled(s) + "'"
  }

  lemma {:induction false} DoublingIsUndone(s: string)
    ensures Undoubled(Doubled(s)) == s
  {
    if s != [] {
      var tail := Doubled(s[1..]);
      DoublingIsUndone(s[1..]);
      if s[0] == '\'' {
        assert Doubled(s) == "''" + tail;
        assert Doubled(s)[2..] == tail;
      } else {
        assert Doubled(s) == [s[0]] + tail;
        assert Doubled(s)[1..] == tail;
      }
      assert s == [s[0]] + s[1..];
    }
  }

  lemma NoComment(sql: string, i: nat)
    requires i < |sql| && sql[i] != '-' && sql[i] != '/'
    ensures !StartsAt(sql, "--", i) && !StartsAt(sql, "/*", i)
  {
    if i + 2 <= |sql| {
      assert sql[i..i + 2][0] == sql[i];
    }
  }

  function DoubledChar(c: char): string {
    if c == '\'' then "''" else [c]
  }

  lemma DoubledParts(sql: string, s: string, i: nat)
    requires s != [] && StartsAt(sql, Doubled(s) + "'", i)
    ensures StartsAt(sql, DoubledChar(s[0]), i)
    ensures StartsAt(sql, Doubled(s[1..]) + "'", i + |DoubledChar(s[0])|)
    ensures |Doubled(s)| == |DoubledChar(s[0])| + |Doubled(s[1..])|
  {
    assert Doubled(s) + "'" == DoubledChar(s[0]) + (Doubled(s[1..]) + "'");
    PartsStart(sql, DoubledChar(s[0]), Doubled(s[1..]) + "'", i);
  }

  lemma {:induction false} QuoteEndsAfterDoubled(sql: string, s: string, i: nat, escapes: bool)
    requires StartsAt(sql, Doubled(s) + "'", i)
    requires var end := i + |Doubled(s)| + 1; end == |sql| || sql[end] != '\''
    requires escapes ==> '\\' !in s
    ensures QuoteEnd(sql, i, '\'', escapes) == i + |Doubled(s)|
  {
    if s == [] {
      CharAt(sql, "'", i, 0);
    } else {
      DoubledParts(sql, s, i);
      HeadIsPassed(sql, s[0], i, escapes);
      QuoteEndsAfterDoubled(sql, s[1..], i + |DoubledChar(s[0])|, escapes);
    }
  }

  /** A character of the text, doubled if it is a quote, is passed over. */
  lemma HeadIsPassed(sql: string, c: char, i: nat, escapes: bool)
    requires StartsAt(sql, DoubledChar(c), i) && (escapes ==> c != '\\')
    ensures QuoteEnd(sql, i, '\'', escapes) == QuoteEnd(sql, i + |DoubledChar(c)|, '\'', escapes)
  {
    CharAt(sql, DoubledChar(c), i, 0);
    if c == '\'' {
      CharAt(sql, DoubledChar(c), i, 1);
    }
  }

  /**
   A quoted text is read as one literal whose un-doubled text is the text, wherever it stands,
   as long as no quote follows it and no `E` before it gives its backslashes a meaning.
   */
  lemma QuotedReadsBack(sql: string, s: string, i: nat)
    requires StartsAt(sql, Quote(s), i)
    requires var end := i + |Quote(s)|; end == |sql| || sql[end] != '\''
    requires Escapes(sql, i) ==> '\\' !in s
    ensures Scan(sql, i) == Turn(Some(Token(Literal, Doubled(s), i)), i + |Quote(s)|)
    ensures Undoubled(Doubled(s)) == s
  {
    DoublingIsUndone(s);
    assert Quote(s) == "'" + (Doubled(s) + "'");
    PartsStart(sql, "'", Doubled(s) + "'", i);
    CharAt(sql, "'", i, 0);
    ScanAtQuote(sql, i);
    ScanOfQuoted(sql, s, i);
  }

  lemma ScanAtQuote(sql: string, i: nat)
    requires i < |sql| && sql[i] == '\''
    ensures Scan(sql, i) == ScanQuoted(sql, i)
  {
    NoComment(sql, i);
  }

  lemma ScanOfQuoted(sql: string, s: string, i: nat)
    requires StartsAt(sql, Doubled(s) + "'", i + 1) && sql[i] == '\''
    requires var end := i + 2 + |Doubled(s)|; end == |sql| || sql[end] != '\''
    requires Escapes(sql, i) ==> '\\' !in s
    ensures ScanQuoted(sql, i) == Turn(Some(Token(Literal, Doubled(s), i)), i + 2 + |Doubled(s)|)
  {
    assert QuoteEnd(sql, i + 1, '\'', Escapes(sql, i)) == i + 1 + |Doubled(s)| by {
      QuoteEndsAfterDoubled(sql, s, i + 1, Escapes(sql, i));
    }
    PartsStart(sql, Doubled(s), "'", i + 1);
    assert Slice(sql, i + 1, i + 1 + |Doubled(s)|) == Doubled(s);
  }

  /** On its own, every quoted text is one literal token and nothing else. */
  lemma QuotedIsOneLiteral(s: string)
    ensures TokensFrom(Quote(s), 0) == [Token(Literal, Doubled(s), 0)]
    ensures Undoubled(Doubled(s)) == s
  {
    var sql := Quote(s);
    assert sql[0..|sql|] == sql;
    QuotedReadsBack(sql, s, 0);
    assert TokensFrom(sql, |sql|) == [];
    TokensOfTurn(sql, 0, Scan(sql, 0));
  }

  // ---- dollar delimiters ----

  /** A delimiter with a name: `$name$`. */
  predicate IsDelimiter(d: string) {
    && |d| >= 3 && d[0] == '$' && d[|d| - 1] == '$'
    && IsIdentStart(d[1])
    && forall k :: 1 <= k < |d| - 1 ==> IsIdent(d[k])
  }

  function Longer(d: string): string
    requires d != []
  {
    d[..|d| - 1] + "_$"
  }

  lemma LongerIsDelimiter(d: string)
    requires IsDelimiter(d)
    ensures IsDelimiter(Longer(d)) && |Longer(d)| == |d| + 1
  {
  }

  /** The first of `d` and its longer forms that the body does not hold. */
  function DelimiterFor(body: string, d: string): (r: string)
    requires IsDelimiter(d)
    ensures IsDelimiter(r) && !Includes(body, r)
    decreases |body| + 1 - |d|
  {
    if Includes(body, d) then
      LongerIsDelimiter(d);
      DelimiterFor(body, Longer(d))
    else d
  }

  method ChooseDelimiter(body: string, start: string) returns (delimiter: string)
    requires IsDelimiter(start)
    ensures delimiter == DelimiterFor(body, start)
  {
    delimiter := start;
    while Includes(body, delimiter)
      invariant IsDelimiter(delimiter) && DelimiterFor(body, delimiter) == DelimiterFor(body, start)
      decreases |body| + 1 - |delimiter|
    {
      LongerIsDelimiter(delimiter);
      delimiter := delimiter[..|delimiter| - 1] + "_$";
    }
  }

  /** The generated block: `do`, and the body between two copies of the delimiter. */
  function BlockText(d: string, body: string): (r: string)
    ensures |r| == 3 + |d| + |body| + 2 + |d| + 1
  {
    "do " + d + (" " + body + " ") + d + ";"
  }

  lemma NotAt(sql: string, d: string, k: nat, j: nat)
    requires j < |d| && k + j < |sql| && sql[k + j] != d[j]
    ensures !StartsAt(sql, d, k)
  {
    if StartsAt(sql, d, k) {
      CharAt(sql, d, k, j);
    }
  }

  /** A copy of the delimiter cannot run into the closing one: the name has no dollar sign and no space. */
  lemma NoStraddling(sql: string, d: string, close: nat, k: nat)
    requires IsDelimiter(d) && StartsAt(sql, d, close)
    requires k < close < k + |d| && sql[close - 1] == ' '
    ensures !StartsAt(sql, d, k)
  {
    var q := k + |d| - 1 - close;
    CharAt(sql, d, close, q);
    NotAt(sql, d, k, if q > 0 then |d| - 1 else |d| - 2);
  }

  lemma NoneInside(sql: string, body: string, d: string, open: nat, k: nat)
    requires IsDelimiter(d) && !Includes(body, d)
    requires StartsAt(sql, " " + body + " ", open)
    requires open <= k && k + |d| <= open + |body| + 2
    ensures !StartsAt(sql, d, k)
  {
    var inner := " " + body + " ";
    if k == open {
      CharAt(sql, inner, open, 0);
      NotAt(sql, d, k, 0);
    } else if k + |d| == open + |inner| {
      CharAt(sql, inner, open, |inner| - 1);
      NotAt(sql, d, k, |d| - 1);
    } else {
      assert !StartsAt(body, d, k - open - 1);
      SamePart(sql, body, open, k, |d|);
    }
  }

  lemma SamePart(sql: string, body: string, open: nat, k: nat, m: nat)
    requires StartsAt(sql, " " + body + " ", open) && open < k && k + m < open + |body| + 2
    ensures sql[k..k + m] == body[k - open - 1..k - open - 1 + m]
  {
    var left, right := sql[k..k + m], body[k - open - 1..k - open - 1 + m];
    forall j | 0 <= j < m
      ensures left[j] == right[j]
    {
      CharAt(sql, " " + body + " ", open, k - open + j);
    }
  }

  /** No copy of the delimiter starts before the one that closes the block. */
  lemma NoEarlierDelimiter(sql: string, body: string, d: string, open: nat, k: nat)
    requires IsDelimiter(d) && !Includes(body, d)
    requires StartsAt(sql, " " + body + " ", open) && StartsAt(sql, d, open + |body| + 2)
    requires open <= k < open + |body| + 2
    ensures !StartsAt(sql, d, k)
  {
    var close := open + |body| + 2;
    if k + |d| <= close {
      NoneInside(sql, body, d, open, k);
    } else {
      CharAt(sql, " " + body + " ", open, |body| + 1);
      NoStraddling(sql, d, close, k);
    }
  }

  lemma DelimiterIsFound(sql: string, body: string, d: string, open: nat)
    requires IsDelimiter(d) && !Includes(body, d)
    requires StartsAt(sql, " " + body + " ", open) && StartsAt(sql, d, open + |body| + 2)
    ensures IndexOf(sql, d, open) == Some(open + |body| + 2)
  {
    forall k | open <= k < open + |body| + 2
      ensures !StartsAt(sql, d, k)
    {
      NoEarlierDelimiter(sql, body, d, open, k);
    }
  }

  lemma {:induction false} IdentRuns(sql: string, i: nat, end: nat)
    requires i <= end < |sql| && !IsIdent(sql[end])
    requires forall k :: i <= k < end ==> IsIdent(sql[k])
    ensures IdentEnd(sql, i) == end
    decreases end - i
  {
    if i < end {
      IdentRuns(sql, i + 1, end);
    }
  }

  lemma DelimiterIsRead(sql: string, d: string, i: nat)
    requires IsDelimiter(d) && StartsAt(sql, d, i)
    ensures i < |sql| && DelimiterEnd(sql, i) == Some(i + |d|)
  {
    assert forall j :: 0 <= j < |d| ==> sql[i + j] == sql[i..i + |d|][j] == d[j];
    assert sql[i + 0] == d[0] && sql[i + 1] == d[1];
    var end := i + (|d| - 1);
    assert sql[end] == d[|d| - 1];
    forall k | i + 1 <= k < end
      ensures IsIdent(sql[k])
    {
      assert sql[i + (k - i)] == d[k - i];
    }
    IdentRuns(sql, i + 1, end);
  }

  lemma BodyIsRead(sql: string, body: string, d: string, i: nat)
    requires IsDelimiter(d) && !Includes(body, d)
    requires StartsAt(sql, d, i) && StartsAt(sql, " " + body + " ", i + |d|)
    requires StartsAt(sql, d, i + |d| + |body| + 2)
    ensures i < |sql|
    ensures Scan(sql, i) == Turn(Some(Token(Body, " " + body + " ", i)), i + |d| + |body| + 2 + |d|)
  {
    CharAt(sql, d, i, 0);
    NoComment(sql, i);
    DelimiterIsRead(sql, d, i);
    ScanOfBody(sql, body, d, i);
  }

  lemma ScanOfBody(sql: string, body: string, d: string, i: nat)
    requires IsDelimiter(d) && !Includes(body, d)
    requires StartsAt(sql, d, i) && StartsAt(sql, " " + body + " ", i + |d|)
    requires StartsAt(sql, d, i + |d| + |body| + 2)
    ensures ScanBody(sql, i, i + |d|) == Turn(Some(Token(Body, " " + body + " ", i)), i + |d| + |body| + 2 + |d|)
  {
    DelimiterIsFound(sql, body, d, i + |d|);
  }

  lemma WordIsRead(sql: string, i: nat)
    requires StartsAt(sql, "do ", i)
    ensures Scan(sql, i) == Turn(Some(Token(Word, "do", i)), i + 2)
    ensures Scan(sql, i + 2) == Turn(None, i + 3)
  {
    var lead := sql[i..i + 3];
    assert sql[i] == lead[0] && sql[i + 1] == lead[1] && sql[i + 2] == lead[2];
    NoComment(sql, i);
    assert WordEnd(sql, i + 2) == i + 2;
    assert WordEnd(sql, i + 1) == i + 2;
    assert WordEnd(sql, i) == i + 2;
    assert Lowered(sql[i..i + 2]) == "do";
  }

  lemma EndIsRead(sql: string, i: nat)
    requires StartsAt(sql, ";", i)
    ensures Scan(sql, i) == Turn(Some(Token(Symbol, ";", i)), i + 1)
  {
    assert sql[i] == sql[i..i + 1][0];
    NoComment(sql, i);
  }

  lemma DoBlockParts(sql: string, d: string, body: string, i: nat, open: nat, close: nat, semicolon: nat)
    requires StartsAt(sql, BlockText(d, body), i)
    requires open == i + 3 && close == open + |d| + |body| + 2 && semicolon == close + |d|
    ensures StartsAt(sql, "do ", i) && StartsAt(sql, d, open) && StartsAt(sql, " " + body + " ", open + |d|)
    ensures StartsAt(sql, d, close) && StartsAt(sql, ";", semicolon)
  {
    var inner := " " + body + " ";
    assert BlockText(d, body) == "do " + (d + (inner + (d + ";")));
    PartsStart(sql, "do ", d + (inner + (d + ";")), i);
    PartsStart(sql, d, inner + (d + ";"), open);
    PartsStart(sql, inner, d + ";", open + |d|);
    PartsStart(sql, d, ";", close);
  }

  lemma WordStep(sql: string, i: nat)
    requires StartsAt(sql, "do ", i)
    ensures TokensFrom(sql, i) == [Token(Word, "do", i)] + TokensFrom(sql, i + 3)
  {
    WordIsRead(sql, i);
    TokensOfTurn(sql, i, Turn(Some(Token(Word, "do", i)), i + 2));
    TokensOfTurn(sql, i + 2, Turn(None, i + 3));
  }

  lemma BodyStep(sql: string, body: string, d: string, i: nat, close: nat, next: nat)
    requires IsDelimiter(d) && !Includes(body, d) && close == i + |d| + |body| + 2 && next == close + |d|
    requires StartsAt(sql, d, i) && StartsAt(sql, " " + body + " ", i + |d|) && StartsAt(sql, d, close)
    ensures TokensFrom(sql, i) == [Token(Body, " " + body + " ", i)] + TokensFrom(sql, next)
  {
    BodyIsRead(sql, body, d, i);
    TokensOfTurn(sql, i, Turn(Some(Token(Body, " " + body + " ", i)), next));
  }

  lemma EndStep(sql: string, i: nat)
    requires StartsAt(sql, ";", i)
    ensures TokensFrom(sql, i) == [Token(Symbol, ";", i)] + TokensFrom(sql, i + 1)
  {
    EndIsRead(sql, i);
    TokensOfTurn(sql, i, Turn(Some(Token(Symbol, ";", i)), i + 1));
  }

  lemma Chain(a: seq<Token>, b: seq<Token>, c: seq<Token>, e: seq<Token>, x: Token, y: Token, z: Token)
    requires a == [x] + b && b == [y] + c && c == [z] + e
    ensures a == [x, y, z] + e
  {
  }

  /**
   Wherever a generated block stands, under a delimiter its body does not hold (as the one
   chosen is), it is read as `do`, one body that holds the whole of its text, and a semicolon.
   */
  lemma BlockReadsBack(sql: string, body: string, d: string, i: nat, semicolon: nat)
    requires IsDelimiter(d) && !Includes(body, d) && StartsAt(sql, BlockText(d, body), i)
    requires semicolon == i + 3 + |d| + |body| + 2 + |d|
    ensures TokensFrom(sql, i)
         == [Token(Word, "do", i), Token(Body, " " + body + " ", i + 3), Token(Symbol, ";", semicolon)]
            + TokensFrom(sql, semicolon + 1)
  {
    var (open, close) := (i + 3, i + 3 + |d| + |body| + 2);
    assert TokensFrom(sql, i) == [Token(Word, "do", i)] + TokensFrom(sql, open) by {
      DoBlockParts(sql, d, body, i, open, close, semicolon);
      WordStep(sql, i);
    }
    assert TokensFrom(sql, open) == [Token(Body, " " + body + " ", open)] + TokensFrom(sql, semicolon) by {
      DoBlockParts(sql, d, body, i, open, close, semicolon);
      BodyStep(sql, body, d, open, close, semicolon);
    }
    assert TokensFrom(sql, semicolon) == [Token(Symbol, ";", semicolon)] + TokensFrom(sql, semicolon + 1) by {
      DoBlockParts(sql, d, body, i, open, close, semicolon);
      EndStep(sql, semicolon);
    }
    Chain(TokensFrom(sql, i), TokensFrom(sql, open), TokensFrom(sql, semicolon), TokensFrom(sql, semicolon + 1),
          Token(Word, "do", i), Token(Body, " " + body + " ", open), Token(Symbol, ";", semicolon));
  }
}
