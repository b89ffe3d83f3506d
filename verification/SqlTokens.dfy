/**
 The SQL tokenizer migration checks read files with, and the quoting and dollar
 delimiters the generated SQL uses, which the tokenizer has to read back.
 A text is a sequence of characters.
 */
module SqlTokens {
  import opened Texts
  import opened Wrappers

  datatype Kind = Word | Literal | Body | Quoted | Symbol

  datatype Token = Token(kind: Kind, text: string, at: nat)

  /** One turn of the scanner: the token it read, if any, and where it goes on. */
  datatype Turn = Turn(token: Option<Token>, next: nat)

  // ---- characters ----

  predicate IsIdentStart(c: char) {
    'a' <= c <= 'z' || 'A' <= c <= 'Z' || c == '_'
  }

  predicate IsIdent(c: char) {
    IsIdentStart(c) || '0' <= c <= '9'
  }

  function Lower(c: char): char {
    if 'A' <= c <= 'Z' then 'a' + (c - 'A') else c
  }

  function Lowered(s: string): (r: string)
    ensures |r| == |s| && forall k :: 0 <= k < |s| ==> r[k] == Lower(s[k])
  {
    seq(|s|, k requires 0 <= k < |s| => Lower(s[k]))
  }

  // ---- searching ----

  function IndexOf(sql: string, pattern: string, from: nat): (r: Option<nat>)
    ensures r.Some? ==> from <= r.value && StartsAt(sql, pattern, r.value)
    ensures r.Some? ==> forall k :: from <= k < r.value ==> !StartsAt(sql, pattern, k)
    ensures r.None? ==> forall k :: from <= k ==> !StartsAt(sql, pattern, k)
    decreases |sql| - from
  {
    if from + |pattern| > |sql| then None
    else if StartsAt(sql, pattern, from) then Some(from)
    else if from == |sql| then None
    else IndexOf(sql, pattern, from + 1)
  }

  predicate Includes(sql: string, pattern: string) {
    IndexOf(sql, pattern, 0).Some?
  }

  function IdentEnd(sql: string, i: nat): (r: nat)
    requires i <= |sql|
    ensures i <= r <= |sql|
    decreases |sql| - i
  {
    if i < |sql| && IsIdent(sql[i]) then IdentEnd(sql, i + 1) else i
  }

  /** A word goes on over dollar signs too. */
  function WordEnd(sql: string, i: nat): (r: nat)
    requires i <= |sql|
    ensures i <= r <= |sql|
    decreases |sql| - i
  {
    if i < |sql| && (IsIdent(sql[i]) || sql[i] == '$') then WordEnd(sql, i + 1) else i
  }

  // ---- the parts of a text ----

  function LineEnd(sql: string, i: nat): nat {
    match IndexOf(sql, "\n", i)
    case Some(end) => end + 1
    case None => |sql|
  }

  function CommentEnd(sql: string, i: nat, depth: nat): nat
    decreases |sql| - i
  {
    if i >= |sql| || depth == 0 then i
    else if StartsAt(sql, "/*", i) then CommentEnd(sql, i + 2, depth + 1)
    else if StartsAt(sql, "*/", i) then CommentEnd(sql, i + 2, depth - 1)
    else CommentEnd(sql, i + 1, depth)
  }

  /** The nesting at `j`, read from `i` on with each mark taken whole; none where the reading does not stop. */
  function NestingAt(sql: string, i: nat, depth: int, j: nat): Option<int>
    decreases j - i
  {
    if i == j then Some(depth)
    else if i > j || i >= |sql| then None
    else if StartsAt(sql, "/*", i) then NestingAt(sql, i + 2, depth + 1, j)
    else if StartsAt(sql, "*/", i) then NestingAt(sql, i + 2, depth - 1, j)
    else NestingAt(sql, i + 1, depth, j)
  }

  /**
   A comment open at `i` closes at `end`: the nesting is back to nothing there, or the text is
   over, and was open before.
   */
  predicate Closes(sql: string, i: nat, depth: int, end: nat) {
    && i <= end
    && (NestingAt(sql, i, depth, end) == Some(0) || (end >= |sql| && NestingAt(sql, i, depth, end).Some?))
    && forall j :: i <= j < end && NestingAt(sql, i, depth, j).Some? ==> NestingAt(sql, i, depth, j).value > 0
  }

  /** The end of a dollar delimiter `$$` or `$name$` that starts at `i`. */
  function DelimiterEnd(sql: string, i: nat): (r: Option<nat>)
    requires i < |sql|
    ensures r.Some? ==> i + 2 <= r.value <= |sql|
  {
    if sql[i] != '$' || i + 1 >= |sql| then None
    else if sql[i + 1] == '$' then Some(i + 2)
    else if !IsIdentStart(sql[i + 1]) then None
    else
      var end := IdentEnd(sql, i + 1);
      if end < |sql| && sql[end] == '$' then Some(end + 1) else None
  }

  /** Whether the literal whose quote is at `at` is an `E'...'` string, which admits escapes. */
  predicate Escapes(sql: string, at: nat)
    requires at <= |sql|
  {
    at > 0 && Lower(sql[at - 1]) == 'e' && (at == 1 || !IsIdent(sql[at - 2]))
  }

  function QuoteEnd(sql: string, i: nat, quote: char, escapes: bool): (r: nat)
    ensures i <= r && r <= if i <= |sql| then |sql| + 1 else i
    decreases |sql| - i
  {
    if i >= |sql| then i
    else if sql[i] == quote then
      if i + 1 < |sql| && sql[i + 1] == quote then QuoteEnd(sql, i + 2, quote, escapes) else i
    else if sql[i] == '\\' && quote == '\'' && escapes then QuoteEnd(sql, i + 2, quote, escapes)
    else QuoteEnd(sql, i + 1, quote, escapes)
  }

  /** A slice whose end may lie past the text. */
  function Slice(sql: string, from: nat, to: nat): string
    requires from <= |sql| && from <= to
  {
    if to <= |sql| then sql[from..to] else sql[from..]
  }

  function ScanBody(sql: string, i: nat, open: nat): Turn
    requires i <= open <= |sql|
  {
    match IndexOf(sql, sql[i..open], open)
    case Some(end) => Turn(Some(Token(Body, sql[open..end], i)), end + (open - i))
    case None => Turn(Some(Token(Body, sql[open..], i)), |sql|)
  }

  function ScanQuoted(sql: string, i: nat): Turn
    requires i < |sql|
  {
    var end := QuoteEnd(sql, i + 1, sql[i], Escapes(sql, i));
    Turn(Some(Token(if sql[i] == '\'' then Literal else Quoted, Slice(sql, i + 1, end), i)), end + 1)
  }

  function Scan(sql: string, i: nat): Turn
    requires i < |sql|
  {
    if IsSpace(sql[i]) then Turn(None, i + 1)
    else if StartsAt(sql, "--", i) then Turn(None, LineEnd(sql, i + 2))
    else if StartsAt(sql, "/*", i) then Turn(None, CommentEnd(sql, i + 2, 1))
    else match DelimiterEnd(sql, i)
      case Some(open) => ScanBody(sql, i, open)
      case None =>
        if sql[i] == '\'' || sql[i] == '"' then ScanQuoted(sql, i)
        else if IsIdentStart(sql[i]) then
          var end := WordEnd(sql, i);
          Turn(Some(Token(Word, Lowered(sql[i..end]), i)), end)
        else Turn(Some(Token(Symbol, sql[i..i + 1], i)), i + 1)
  }

  lemma {:induction false} CommentGoesOn(sql: string, i: nat, depth: nat)
    ensures CommentEnd(sql, i, depth) >= i
    decreases |sql| - i
  {
    if i < |sql| && depth > 0 {
      if StartsAt(sql, "/*", i) {
        CommentGoesOn(sql, i + 2, depth + 1);
      } else if StartsAt(sql, "*/", i) {
        CommentGoesOn(sql, i + 2, depth - 1);
      } else {
        CommentGoesOn(sql, i + 1, depth);
      }
    }
  }

  lemma {:induction false} CommentCloses(sql: string, i: nat, depth: nat)
    ensures Closes(sql, i, depth, CommentEnd(sql, i, depth))
    decreases |sql| - i
  {
    if i < |sql| && depth > 0 {
      var end := CommentEnd(sql, i, depth);
      if StartsAt(sql, "/*", i) {
        CommentCloses(sql, i + 2, depth + 1);
        ClosesFrom(sql, i, depth, i + 2, depth + 1, end);
      } else if StartsAt(sql, "*/", i) {
        CommentCloses(sql, i + 2, depth - 1);
        ClosesFrom(sql, i, depth, i + 2, depth - 1, end);
      } else {
        CommentCloses(sql, i + 1, depth);
        ClosesFrom(sql, i, depth, i + 1, depth, end);
      }
    }
  }

  lemma ClosesFrom(sql: string, i: nat, depth: nat, next: nat, inner: int, end: nat)
    requires i < |sql| && depth > 0 && Closes(sql, next, inner, end)
    requires if StartsAt(sql, "/*", i) then next == i + 2 && inner == depth + 1
      else if StartsAt(sql, "*/", i) then next == i + 2 && inner == depth - 1
      else next == i + 1 && inner == depth
    ensures Closes(sql, i, depth, end)
  {
    forall j | i <= j < end && NestingAt(sql, i, depth, j).Some?
      ensures NestingAt(sql, i, depth, j).value > 0
    {
      if j > i {
        assert NestingAt(sql, i, depth, j) == NestingAt(sql, next, inner, j);
      }
    }
  }

  /** Every turn moves on. */
  lemma ScanGoesOn(sql: string, i: nat)
    requires i < |sql|
    ensures Scan(sql, i).next > i
  {
    CommentGoesOn(sql, i + 2, 1);
  }

  function TokensFrom(sql: string, i: nat): seq<Token>
    decreases |sql| - i
  {
    if i >= |sql| then []
    else
      ScanGoesOn(sql, i);
      var turn := Scan(sql, i);
      (if turn.token.Some? then [turn.token.value] else []) + TokensFrom(sql, turn.next)
  }

  // ---- where tokens lie ----

  /** How far a token's text starts after the token. */
  function Lead(sql: string, t: Token): nat
    requires t.at < |sql|
  {
    match t.kind
    case Word => 0
    case Symbol => 0
    case Literal => 1
    case Quoted => 1
    case Body => match DelimiterEnd(sql, t.at) case Some(open) => open - t.at case None => 0
  }

  /** The token is the text that starts at its offset; a word is that text in lower case. */
  predicate ReadsAt(sql: string, t: Token) {
    && t.at < |sql|
    && var from := t.at + Lead(sql, t);
    && from + |t.text| <= |sql|
    && t.text == if t.kind.Word? then Lowered(sql[from..from + |t.text|]) else sql[from..from + |t.text|]
  }

  predicate OneAfterAnother(sql: string, tokens: seq<Token>, from: nat) {
    && (forall k :: 0 <= k < |tokens| ==> from <= tokens[k].at && ReadsAt(sql, tokens[k]))
    && (forall j, k :: 0 <= j < k < |tokens| ==>
          tokens[j].at < tokens[k].at
          && tokens[j].at + Lead(sql, tokens[j]) + |tokens[j].text| <= tokens[k].at)
  }

  /** The turn's token starts where the turn does, and the turn goes past its text. */
  predicate Reads(sql: string, i: nat, turn: Turn) {
    turn.token.Some? ==>
      var t := turn.token.value;
      t.at == i && ReadsAt(sql, t) && (turn.next < |sql| ==> i + Lead(sql, t) + |t.text| <= turn.next)
  }

  lemma BodyReads(sql: string, i: nat, open: nat)
    requires i < |sql| && DelimiterEnd(sql, i) == Some(open)
    ensures Reads(sql, i, ScanBody(sql, i, open))
  {
  }

  lemma QuotedReads(sql: string, i: nat)
    requires i < |sql| && (sql[i] == '\'' || sql[i] == '"')
    ensures Reads(sql, i, ScanQuoted(sql, i))
  {
  }

  lemma WordReads(sql: string, i: nat, end: nat)
    requires i < |sql| && i <= end <= |sql|
    ensures Reads(sql, i, Turn(Some(Token(Word, Lowered(sql[i..end]), i)), end))
  {
  }

  lemma SymbolReads(sql: string, i: nat)
    requires i < |sql|
    ensures Reads(sql, i, Turn(Some(Token(Symbol, sql[i..i + 1], i)), i + 1))
  {
  }

  lemma ScanReads(sql: string, i: nat)
    requires i < |sql|
    ensures Reads(sql, i, Scan(sql, i))
  {
    SymbolReads(sql, i);
    WordReads(sql, i, WordEnd(sql, i));
    if DelimiterEnd(sql, i).Some? {
      BodyReads(sql, i, DelimiterEnd(sql, i).value);
    }
    if sql[i] == '\'' || sql[i] == '"' {
      QuotedReads(sql, i);
    }
  }

  lemma ThenOthers(sql: string, t: Token, end: nat, later: seq<Token>)
    requires ReadsAt(sql, t) && OneAfterAnother(sql, later, end) && t.at < end
    requires later != [] ==> t.at + Lead(sql, t) + |t.text| <= end
    ensures OneAfterAnother(sql, [t] + later, t.at)
  {
  }

  lemma TokensOfTurn(sql: string, i: nat, turn: Turn)
    requires i < |sql| && turn == Scan(sql, i)
    ensures turn.next > i
    ensures TokensFrom(sql, i) == (if turn.token.Some? then [turn.token.value] else []) + TokensFrom(sql, turn.next)
    ensures TokensFrom(sql, turn.next) != [] ==> turn.next < |sql|
  {
    ScanGoesOn(sql, i);
  }

  lemma TurnThenOthers(sql: string, i: nat, turn: Turn, later: seq<Token>)
    requires Reads(sql, i, turn) && turn.next > i && OneAfterAnother(sql, later, turn.next)
    requires later != [] ==> turn.next < |sql|
    ensures OneAfterAnother(sql, (if turn.token.Some? then [turn.token.value] else []) + later, i)
  {
    if turn.token.Some? {
      ThenOthers(sql, turn.token.value, turn.next, later);
    } else {
      assert [] + later == later;
    }
  }

  /** Every text is read to its end, into tokens at strictly increasing offsets inside it that share no character. */
  lemma {:induction false} TokensLieInOrder(sql: string, i: nat)
    ensures OneAfterAnother(sql, TokensFrom(sql, i), i)
    decreases |sql| - i
  {
    if i < |sql| {
      var turn := Scan(sql, i);
      ScanReads(sql, i);
      TokensOfTurn(sql, i, turn);
      TokensLieInOrder(sql, turn.next);
      TurnThenOthers(sql, i, turn, TokensFrom(sql, turn.next));
    } else {
      assert TokensFrom(sql, i) == [];
    }
  }

  // ---- the scanner ----

  method SkipComment(sql: string, from: nat) returns (i: nat)
    ensures i == CommentEnd(sql, from, 1)
    ensures Closes(sql, from, 1, i)
  {
    CommentCloses(sql, from, 1);
    i := from;
    var depth := 1;
    while i < |sql| && depth > 0
      invariant CommentEnd(sql, i, depth) == CommentEnd(sql, from, 1)
      decreases |sql| - i
    {
      if StartsAt(sql, "/*", i) {
        depth := depth + 1;
        i := i + 2;
      } else if StartsAt(sql, "*/", i) {
        depth := depth - 1;
        i := i + 2;
      } else {
        i := i + 1;
      }
    }
  }

  method SkipQuoted(sql: string, from: nat, quote: char) returns (i: nat)
    requires 0 < from <= |sql|
    ensures i == QuoteEnd(sql, from, quote, Escapes(sql, from - 1))
  {
    i := from;
    while i < |sql|
      invariant QuoteEnd(sql, i, quote, Escapes(sql, from - 1)) == QuoteEnd(sql, from, quote, Escapes(sql, from - 1))
      decreases |sql| - i
    {
      if sql[i] == quote {
        if i + 1 < |sql| && sql[i + 1] == quote {
          i := i + 2;
          continue;
        }
        break;
      }
      if sql[i] == '\\' && quote == '\'' && Escapes(sql, from - 1) {
        i := i + 1;
      }
      i := i + 1;
    }
  }

  method ReadOne(sql: string, i: nat) returns (turn: Turn)
    requires i < |sql|
    ensures turn == Scan(sql, i)
  {
    if IsSpace(sql[i]) {
      return Turn(None, i + 1);
    }
    if StartsAt(sql, "--", i) {
      return Turn(None, LineEnd(sql, i + 2));
    }
    if StartsAt(sql, "/*", i) {
      var end := SkipComment(sql, i + 2);
      return Turn(None, end);
    }
    var delimiter := DelimiterEnd(sql, i);
    if delimiter.Some? {
      return ScanBody(sql, i, delimiter.value);
    }
    if sql[i] == '\'' || sql[i] == '"' {
      var end := SkipQuoted(sql, i + 1, sql[i]);
      return Turn(Some(Token(if sql[i] == '\'' then Literal else Quoted, Slice(sql, i + 1, end), i)), end + 1);
    }
    if IsIdentStart(sql[i]) {
      var end := WordEnd(sql, i);
      return Turn(Some(Token(Word, Lowered(sql[i..end]), i)), end);
    }
    return Turn(Some(Token(Symbol, sql[i..i + 1], i)), i + 1);
  }

  lemma ReadOneMore(sql: string, tokens: seq<Token>, i: nat, turn: Turn, all: seq<Token>)
    requires i < |sql| && turn == Scan(sql, i) && tokens + TokensFrom(sql, i) == all
    ensures turn.next > i
    ensures tokens + (if turn.token.Some? then [turn.token.value] else []) + TokensFrom(sql, turn.next) == all
  {
    TokensOfTurn(sql, i, turn);
  }

  method Tokenize(sql: string) returns (tokens: seq<Token>)
    ensures tokens == TokensFrom(sql, 0)
  {
    ghost var all := TokensFrom(sql, 0);
    tokens := [];
    var i := 0;
    while i < |sql|
      invariant tokens + TokensFrom(sql, i) == all
      decreases |sql| - i
    {
      var turn := ReadOne(sql, i);
      ReadOneMore(sql, tokens, i, turn, all);
      if turn.token.Some? {
        tokens := tokens + [turn.token.value];
      } else {
        assert tokens + [] == tokens;
      }
      i := turn.next;
    }
  }
}
