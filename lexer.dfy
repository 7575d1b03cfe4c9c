/**
 * Lexical analysis of the mini compiler: a cursor walks the source text
 * left to right; at each position the token classes are tried in a fixed
 * priority order, the first class that matches wins, whitespace is skipped
 * and every other match becomes one token whose text is the matched
 * characters. A character no class matches stops the scan with an error.
 */
module Lexer {
  import opened Options

  /** The token classes of the lexer's table, in the order they are tried. */
  datatype Class = Number | Identifier | Assign | End | Op | Whitespace

  datatype Token = Token(kind: Class, text: string)

  /** The character no class matches, and its offset in the scanned text. */
  datatype LexError = LexError(at: nat, ch: char)

  datatype LexResult = Tokens(tokens: seq<Token>) | Failed(error: LexError)

  /** The priority order of the lexer's table. */
  const Classes: seq<Class> := [Number, Identifier, Assign, End, Op, Whitespace]

  predicate IsDigit(c: char) { '0' <= c <= '9' }
  predicate IsLetter(c: char) { 'a' <= c <= 'z' || 'A' <= c <= 'Z' }
  predicate IsIdentStart(c: char) { IsLetter(c) || c == '_' }
  predicate IsIdentPart(c: char) { IsIdentStart(c) || IsDigit(c) }
  predicate IsOpChar(c: char) { c == '+' || c == '-' || c == '*' || c == '/' }
  predicate IsBlank(c: char) { c == ' ' || c == '\t' }

  /** The characters that can begin a match of class `c`. */
  predicate Starts(c: Class, ch: char)
  {
    match c
    case Number => IsDigit(ch)
    case Identifier => IsIdentStart(ch)
    case Assign => ch == '='
    case End => ch == ';'
    case Op => IsOpChar(ch)
    case Whitespace => IsBlank(ch)
  }

  /** The characters that can continue a match of class `c` once it has begun; none for the one-character classes. */
  predicate Extends(c: Class, ch: char)
  {
    match c
    case Number => IsDigit(ch)
    case Identifier => IsIdentPart(ch)
    case Whitespace => IsBlank(ch)
    case _ => false
  }

  /** The first position from `i` on whose character cannot continue a match of class `c`. */
  function RunEnd(c: Class, s: string, i: nat): (j: nat)
    requires i <= |s|
    ensures i <= j <= |s|
    ensures j == |s| || !Extends(c, s[j])
    decreases |s| - i
  {
    if i < |s| && Extends(c, s[i]) then RunEnd(c, s, i + 1) else i
  }

  /**
   * Where the longest match of class `c` starting at position `i` ends; `i`
   * itself when the class does not match there. A match is a digit run, an
   * identifier start followed by identifier characters, one of the
   * single-character literals, or a run of spaces and tabs.
   */
  function MatchEnd(c: Class, s: string, i: nat): (j: nat)
    requires i <= |s|
    ensures i <= j <= |s|
    ensures j > i <==> i < |s| && Starts(c, s[i])
  {
    if i < |s| && Starts(c, s[i]) then RunEnd(c, s, i + 1) else i
  }

  /**
   * The class whose match the scanner takes at position `i`: the first one,
   * in priority order, whose match can begin with the character there.
   */
  function FirstClass(s: string, i: nat): (r: Option<Class>)
    requires i <= |s|
    ensures r.Some? ==> MatchEnd(r.value, s, i) > i
  {
    if i == |s| then None
    else if Starts(Number, s[i]) then Some(Number)
    else if Starts(Identifier, s[i]) then Some(Identifier)
    else if Starts(Assign, s[i]) then Some(Assign)
    else if Starts(End, s[i]) then Some(End)
    else if Starts(Op, s[i]) then Some(Op)
    else if Starts(Whitespace, s[i]) then Some(Whitespace)
    else None
  }

  /** The tokens a match of class `c` with text `text` adds: none for whitespace, otherwise one. */
  function Emitted(c: Class, text: string): seq<Token>
  {
    if c == Whitespace then [] else [Token(c, text)]
  }

  /** The tokens `done` produced before the scan whose result is `r`. */
  function Prepend(done: seq<Token>, r: LexResult): LexResult
  {
    match r
    case Tokens(ts) => Tokens(done + ts)
    case Failed(_) => r
  }

  /**
   * The result of scanning `s` from position `i` to its end; a failure
   * names a character, at or after `i`, that no class matches, with its offset.
   */
  function LexFrom(s: string, i: nat): (r: LexResult)
    requires i <= |s|
    ensures r.Failed? ==> i <= r.error.at < |s|
    decreases |s| - i
  {
    if i == |s| then Tokens([])
    else
      match FirstClass(s, i)
      case None => Failed(LexError(i, s[i]))
      case Some(c) => Prepend(Emitted(c, s[i..MatchEnd(c, s, i)]), LexFrom(s, MatchEnd(c, s, i)))
  }

  /** The result of scanning the whole of `s`. */
  function Lex(s: string): (r: LexResult)
    ensures r.Failed? ==> r.error.at < |s| && r.error.ch == s[r.error.at] && Unexpected(r.error.ch)
  {
    if LexFrom(s, 0).Failed? then LexFailure(s, 0); LexFrom(s, 0) else LexFrom(s, 0)
  }

  /** One step of the scan: the match taken at `i`, followed by the scan from its end. */
  lemma LexStep(s: string, i: nat)
    requires i < |s| && FirstClass(s, i).Some?
    ensures LexFrom(s, i) == Prepend(Emitted(FirstClass(s, i).value, s[i..MatchEnd(FirstClass(s, i).value, s, i)]),
                                     LexFrom(s, MatchEnd(FirstClass(s, i).value, s, i)))
  {
  }

  /** Position of a class in the priority order. */
  function Priority(c: Class): (i: nat)
    ensures i < |Classes| && Classes[i] == c
  {
    match c
    case Number => 0
    case Identifier => 1
    case Assign => 2
    case End => 3
    case Op => 4
    case Whitespace => 5
  }

  /**
   * The scanner's choice is the first class of the table that matches: when
   * the classes before index `i` do not match at `p` and the one at `i` does,
   * or `i` is past the end of the table, the choice is the class at `i`, or none.
   */
  lemma FirstClassIs(s: string, p: nat, i: nat)
    requires p <= |s| && i <= |Classes|
    requires forall k :: 0 <= k < i ==> MatchEnd(Classes[k], s, p) == p
    requires i < |Classes| ==> MatchEnd(Classes[i], s, p) > p
    ensures FirstClass(s, p) == if i < |Classes| then Some(Classes[i]) else None
  {
    if p < |s| {
      var ch := s[p];
      if i > 0 { assert MatchEnd(Classes[0], s, p) == p && !Starts(Number, ch); }
      if i > 1 { assert MatchEnd(Classes[1], s, p) == p && !Starts(Identifier, ch); }
      if i > 2 { assert MatchEnd(Classes[2], s, p) == p && !Starts(Assign, ch); }
      if i > 3 { assert MatchEnd(Classes[3], s, p) == p && !Starts(End, ch); }
      if i > 4 { assert MatchEnd(Classes[4], s, p) == p && !Starts(Op, ch); }
      if i > 5 { assert MatchEnd(Classes[5], s, p) == p && !Starts(Whitespace, ch); }
    }
  }

  lemma PrependNothing(r: LexResult)
    ensures Prepend([], r) == r
  {
    if r.Tokens? {
      assert [] + r.tokens == r.tokens;
    }
  }

  lemma PrependPrepend(a: seq<Token>, b: seq<Token>, r: LexResult)
    ensures Prepend(a, Prepend(b, r)) == Prepend(a + b, r)
  {
    if r.Tokens? {
      assert a + (b + r.tokens) == a + b + r.tokens;
    }
  }

  /** The global token array and its count, filled by `AddToken`. */
  class TokenTable {
    var tokens: seq<Token>

    constructor ()
      ensures tokens == []
    {
      tokens := [];
    }

    method AddToken(kind: Class, value: string)
      modifies this
      ensures tokens == old(tokens) + [Token(kind, value)]
    {
      tokens := tokens + [Token(kind, value)];
    }
  }

  /**
   * The inner loop of the scan: the classes of the table are tried in order
   * until one matches at position `ptr`; the result is its index, or the
   * size of the table when none matches.
   */
  method TryClasses(code: string, ptr: nat) returns (i: nat)
    requires ptr <= |code|
    ensures i <= |Classes|
    ensures FirstClass(code, ptr) == if i < |Classes| then Some(Classes[i]) else None
  {
    i := 0;
    while i < |Classes| && MatchEnd(Classes[i], code, ptr) == ptr
      invariant i <= |Classes|
      invariant forall k :: 0 <= k < i ==> MatchEnd(Classes[k], code, ptr) == ptr
    {
      i := i + 1;
    }
    FirstClassIs(code, ptr, i);
  }

  /**
   * The scanning loop: at each position try the classes in order; on the
   * first match append a token unless it is whitespace and advance past the
   * match; stop with an error at a character no class matches.
   */
  method Tokenize(code: string) returns (r: LexResult)
    ensures r == Lex(code)
  {
    var table := new TokenTable();
    var ptr := 0;
    PrependNothing(LexFrom(code, 0));
    while ptr < |code|
      invariant ptr <= |code|
      invariant Lex(code) == Prepend(table.tokens, LexFrom(code, ptr))
      decreases |code| - ptr
    {
      var i := TryClasses(code, ptr);
      if i == |Classes| {
        return Failed(LexError(ptr, code[ptr]));
      }
      var kind := Classes[i];
      var next := MatchEnd(kind, code, ptr);
      PrependPrepend(table.tokens, Emitted(kind, code[ptr..next]), LexFrom(code, next));
      if kind != Whitespace {
        table.AddToken(kind, code[ptr..next]);
      } else {
        assert table.tokens + [] == table.tokens;
      }
      ptr := next;
    }
    r := Tokens(table.tokens);
  }

  // ----- Properties of the scanner -----

  /** A character at which none of the classes can match. */
  predicate Unexpected(ch: char)
  {
    !IsDigit(ch) && !IsIdentStart(ch) && ch != '=' && ch != ';' && !IsOpChar(ch) && !IsBlank(ch)
  }

  /** A token the scanner can produce: not whitespace, and its text is one whole match of its class. */
  predicate ValidToken(t: Token)
  {
    t.kind != Whitespace && 0 < |t.text| && MatchEnd(t.kind, t.text, 0) == |t.text|
  }

  /** No class matches exactly when the character at the scan position is unexpected. */
  lemma NoMatchIffUnexpected(s: string, i: nat)
    requires i < |s|
    ensures FirstClass(s, i).None? <==> Unexpected(s[i])
    ensures FirstClass(s, i).None? <==> forall k :: 0 <= k < |Classes| ==> MatchEnd(Classes[k], s, i) == i
  {
    if FirstClass(s, i).Some? {
      var c := FirstClass(s, i).value;
      assert MatchEnd(Classes[Priority(c)], s, i) > i;
    }
  }

  /** The class whose match can begin with the character at `i` is the scanner's choice there. */
  lemma FirstClassOf(s: string, i: nat, c: Class)
    requires i < |s| && Starts(c, s[i])
    ensures FirstClass(s, i) == Some(c)
  {
  }

  /**
   * At most one class matches at any position: the classes begin with
   * disjoint sets of characters, so the priority order never has to break a tie.
   */
  lemma ClassesDisjoint(s: string, p: nat, i: nat, j: nat)
    requires p <= |s| && i < |Classes| && j < |Classes|
    requires MatchEnd(Classes[i], s, p) > p && MatchEnd(Classes[j], s, p) > p
    ensures i == j
  {
  }

  /** A run ends exactly at the first character from `i` on that cannot continue the match. */
  lemma {:induction false} RunEndIs(c: Class, s: string, i: nat, k: nat)
    requires i <= k <= |s|
    requires forall p :: i <= p < k ==> Extends(c, s[p])
    requires k == |s| || !Extends(c, s[k])
    ensures RunEnd(c, s, i) == k
    decreases k - i
  {
    if i < k {
      RunEndIs(c, s, i + 1, k);
    }
  }

  /** Every character a run passes over continues the match. */
  lemma {:induction false} RunChars(c: Class, s: string, i: nat)
    requires i <= |s|
    ensures forall p :: i <= p < RunEnd(c, s, i) ==> Extends(c, s[p])
    decreases |s| - i
  {
    if i < |s| && Extends(c, s[i]) {
      RunChars(c, s, i + 1);
    }
  }

  /** The characters of a non-whitespace match; none of them is a blank. */
  lemma MatchNotBlank(c: Class, s: string, i: nat)
    requires i <= |s| && c != Whitespace
    ensures forall p :: i <= p < MatchEnd(c, s, i) ==> !IsBlank(s[p])
  {
    if i < |s| && Starts(c, s[i]) {
      RunChars(c, s, i + 1);
    }
  }

  /** A whitespace match is made of blanks only. */
  lemma WhitespaceBlank(s: string, i: nat)
    requires i <= |s|
    ensures forall p :: i <= p < MatchEnd(Whitespace, s, i) ==> IsBlank(s[p])
  {
    if i < |s| && IsBlank(s[i]) {
      RunChars(Whitespace, s, i + 1);
    }
  }

  /**
   * The text of a valid token written at position `i`, followed by the end
   * of the text or by a character that cannot continue it, is matched whole.
   */
  lemma MatchAt(t: Token, s: string, i: nat)
    requires ValidToken(t) && i + |t.text| <= |s| && s[i..i + |t.text|] == t.text
    requires i + |t.text| == |s| || !Extends(t.kind, s[i + |t.text|])
    ensures MatchEnd(t.kind, s, i) == i + |t.text|
  {
    var n := |t.text|;
    assert s[i] == t.text[0];
    RunChars(t.kind, t.text, 1);
    forall p | i + 1 <= p < i + n
      ensures Extends(t.kind, s[p])
    {
      assert s[p] == t.text[p - i];
    }
    RunEndIs(t.kind, s, i + 1, i + n);
  }

  /** The text of a match is itself one whole match of the class. */
  lemma MatchWhole(c: Class, s: string, i: nat)
    requires i <= |s| && c != Whitespace && MatchEnd(c, s, i) > i
    ensures ValidToken(Token(c, s[i..MatchEnd(c, s, i)]))
  {
    var text := s[i..MatchEnd(c, s, i)];
    RunChars(c, s, i + 1);
    forall p | 1 <= p < |text|
      ensures Extends(c, text[p])
    {
      assert text[p] == s[i + p];
    }
    RunEndIs(c, text, 1, |text|);
  }

  /** No character a match passes over is one that no class matches. */
  lemma MatchCovered(c: Class, s: string, i: nat)
    requires i <= |s|
    ensures forall p :: i <= p < MatchEnd(c, s, i) ==> !Unexpected(s[p])
  {
    if i < |s| && Starts(c, s[i]) {
      RunChars(c, s, i + 1);
    }
  }

  /**
   * The scan stops at the first character no class matches: every character
   * before the reported one, from the start of the scan, is one some class matches.
   */
  lemma {:induction false} LexFailure(s: string, i: nat)
    requires i <= |s| && LexFrom(s, i).Failed?
    ensures s[LexFrom(s, i).error.at] == LexFrom(s, i).error.ch && Unexpected(LexFrom(s, i).error.ch)
    ensures forall j :: i <= j < LexFrom(s, i).error.at ==> !Unexpected(s[j])
    decreases |s| - i
  {
    NoMatchIffUnexpected(s, i);
    if FirstClass(s, i).Some? {
      MatchCovered(FirstClass(s, i).value, s, i);
      LexFailure(s, MatchEnd(FirstClass(s, i).value, s, i));
    }
  }

  /** A scan fails exactly when the scanned text holds a character no class matches. */
  lemma {:induction false} LexFailsIff(s: string, i: nat)
    requires i <= |s|
    ensures LexFrom(s, i).Failed? <==> exists j :: i <= j < |s| && Unexpected(s[j])
    decreases |s| - i
  {
    if LexFrom(s, i).Failed? {
      LexFailure(s, i);
    } else if i < |s| {
      MatchCovered(FirstClass(s, i).value, s, i);
      LexFailsIff(s, MatchEnd(FirstClass(s, i).value, s, i));
      LexStep(s, i);
    }
  }

  /** Every token of a successful scan is valid: whitespace is never emitted and no token is empty. */
  lemma {:induction false} LexTokensValid(s: string, i: nat)
    requires i <= |s| && LexFrom(s, i).Tokens?
    ensures forall t :: t in LexFrom(s, i).tokens ==> ValidToken(t)
    decreases |s| - i
  {
    if i < |s| {
      var c := FirstClass(s, i).value;
      LexTokensValid(s, MatchEnd(c, s, i));
      if c != Whitespace {
        MatchWhole(c, s, i);
      }
    }
  }

  /** The text with its spaces and tabs removed. */
  function Strip(s: string): (r: string)
    ensures forall i :: 0 <= i < |r| ==> !IsBlank(r[i])
  {
    if |s| == 0 then []
    else if IsBlank(s[0]) then Strip(s[1..])
    else [s[0]] + Strip(s[1..])
  }

  /** The token texts laid end to end. */
  function Concat(ts: seq<Token>): string
  {
    if |ts| == 0 then [] else ts[0].text + Concat(ts[1..])
  }

  lemma {:induction false} StripAppend(a: string, b: string)
    ensures Strip(a + b) == Strip(a) + Strip(b)
  {
    if |a| > 0 {
      assert (a + b)[1..] == a[1..] + b;
      StripAppend(a[1..], b);
    } else {
      assert a + b == b;
    }
  }

  lemma {:induction false} StripKeeps(s: string)
    requires forall i :: 0 <= i < |s| ==> !IsBlank(s[i])
    ensures Strip(s) == s
  {
    if |s| > 0 {
      StripKeeps(s[1..]);
    }
  }

  lemma {:induction false} StripDrops(s: string)
    requires forall i :: 0 <= i < |s| ==> IsBlank(s[i])
    ensures Strip(s) == []
  {
    if |s| > 0 {
      StripDrops(s[1..]);
    }
  }

  lemma ConcatPrepend(t: Token, ts: seq<Token>)
    ensures Concat([t] + ts) == t.text + Concat(ts)
  {
    assert ([t] + ts)[1..] == ts;
  }

  lemma StripSplit(s: string, i: nat, e: nat)
    requires i <= e <= |s|
    ensures Strip(s[i..]) == Strip(s[i..e]) + Strip(s[e..])
  {
    assert s[i..] == s[i..e] + s[e..];
    StripAppend(s[i..e], s[e..]);
  }

  /** The match at `i` contributes its text, without blanks, to the stripped text. */
  lemma StripMatch(s: string, i: nat, c: Class)
    requires i <= |s|
    ensures Strip(s[i..MatchEnd(c, s, i)]) == if c == Whitespace then [] else s[i..MatchEnd(c, s, i)]
  {
    var text := s[i..MatchEnd(c, s, i)];
    if c == Whitespace {
      WhitespaceBlank(s, i);
      assert forall p :: 0 <= p < |text| ==> text[p] == s[i + p];
      StripDrops(text);
    } else {
      MatchNotBlank(c, s, i);
      assert forall p :: 0 <= p < |text| ==> text[p] == s[i + p];
      StripKeeps(text);
    }
  }

  /**
   * Nothing but whitespace is lost: the texts of the tokens of a successful
   * scan, laid end to end, are the scanned text with its spaces and tabs removed.
   */
  lemma {:induction false} LexConcat(s: string, i: nat)
    requires i <= |s| && LexFrom(s, i).Tokens?
    ensures Concat(LexFrom(s, i).tokens) == Strip(s[i..])
    decreases |s| - i
  {
    if i == |s| {
      assert s[i..] == [];
    } else {
      LexConcat(s, MatchEnd(FirstClass(s, i).value, s, i));
      StripSplit(s, i, MatchEnd(FirstClass(s, i).value, s, i));
      StripMatch(s, i, FirstClass(s, i).value);
      LexStep(s, i);
      if FirstClass(s, i).value == Whitespace {
        PrependNothing(LexFrom(s, MatchEnd(FirstClass(s, i).value, s, i)));
      } else {
        ConcatPrepend(Token(FirstClass(s, i).value, s[i..MatchEnd(FirstClass(s, i).value, s, i)]),
                      LexFrom(s, MatchEnd(FirstClass(s, i).value, s, i)).tokens);
      }
    }
  }

  /** Every gap is made of spaces and tabs only. */
  predicate AllBlank(gaps: seq<string>)
  {
    forall k, p :: 0 <= k < |gaps| && 0 <= p < |gaps[k]| ==> IsBlank(gaps[k][p])
  }

  /** The gaps and the token texts taken in turn: a gap, a token, a gap, ..., the last gap. */
  function Interleave(gaps: seq<string>, ts: seq<Token>): string
    requires |gaps| == |ts| + 1
    decreases |ts|
  {
    if |ts| == 0 then gaps[0] else gaps[0] + ts[0].text + Interleave(gaps[1..], ts[1..])
  }

  lemma InterleaveBlank(g: string, gaps: seq<string>, ts: seq<Token>)
    requires |gaps| == |ts| + 1
    ensures Interleave([g + gaps[0]] + gaps[1..], ts) == g + Interleave(gaps, ts)
  {
    assert ([g + gaps[0]] + gaps[1..])[1..] == gaps[1..];
  }

  lemma InterleaveToken(t: Token, gaps: seq<string>, ts: seq<Token>)
    requires |gaps| == |ts| + 1
    ensures Interleave([[]] + gaps, [t] + ts) == t.text + Interleave(gaps, ts)
  {
    assert ([[]] + gaps)[1..] == gaps;
    assert ([t] + ts)[1..] == ts;
    assert ([[]] + gaps)[0] == [] && ([t] + ts)[0] == t;
    assert [] + t.text == t.text;
  }

  /**
   * The text from `i` to its end is the texts of `ts` with runs of spaces
   * and tabs between them and around them.
   */
  ghost predicate Laid(s: string, i: nat, ts: seq<Token>)
    requires i <= |s|
  {
    exists gaps :: |gaps| == |ts| + 1 && AllBlank(gaps) && s[i..] == Interleave(gaps, ts)
  }

  lemma LaidEnd(s: string)
    ensures Laid(s, |s|, [])
  {
    assert s[|s|..] == Interleave([[]], []);
  }

  /** Blanks in front of a layout widen its first gap. */
  lemma LaidBlank(s: string, i: nat, m: nat, ts: seq<Token>)
    requires i <= m <= |s| && Laid(s, m, ts)
    requires forall p :: i <= p < m ==> IsBlank(s[p])
    ensures Laid(s, i, ts)
  {
    var gaps :| |gaps| == |ts| + 1 && AllBlank(gaps) && s[m..] == Interleave(gaps, ts);
    InterleaveBlank(s[i..m], gaps, ts);
    assert s[i..] == s[i..m] + s[m..];
    assert AllBlank([s[i..m] + gaps[0]] + gaps[1..]);
  }

  /** A token's text in front of a layout adds the token, after an empty gap. */
  lemma LaidToken(s: string, i: nat, m: nat, t: Token, ts: seq<Token>)
    requires i <= m <= |s| && Laid(s, m, ts) && s[i..m] == t.text
    ensures Laid(s, i, [t] + ts)
  {
    var gaps :| |gaps| == |ts| + 1 && AllBlank(gaps) && s[m..] == Interleave(gaps, ts);
    InterleaveToken(t, gaps, ts);
    assert s[i..] == s[i..m] + s[m..];
    assert AllBlank([[]] + gaps);
  }

  /**
   * The scanned text is the token texts with runs of spaces and tabs between
   * them and around them: only whitespace is skipped, each token's text is
   * taken from the text in order, and nothing is reordered or lost.
   */
  lemma {:induction false} LexLayout(s: string, i: nat)
    requires i <= |s| && LexFrom(s, i).Tokens?
    ensures Laid(s, i, LexFrom(s, i).tokens)
    decreases |s| - i
  {
    if i == |s| {
      LaidEnd(s);
    } else {
      LexLayout(s, MatchEnd(FirstClass(s, i).value, s, i));
      LexStep(s, i);
      if FirstClass(s, i).value == Whitespace {
        WhitespaceBlank(s, i);
        PrependNothing(LexFrom(s, MatchEnd(FirstClass(s, i).value, s, i)));
        LaidBlank(s, i, MatchEnd(FirstClass(s, i).value, s, i), LexFrom(s, MatchEnd(FirstClass(s, i).value, s, i)).tokens);
      } else {
        LaidToken(s, i, MatchEnd(FirstClass(s, i).value, s, i),
                  Token(FirstClass(s, i).value, s[i..MatchEnd(FirstClass(s, i).value, s, i)]),
                  LexFrom(s, MatchEnd(FirstClass(s, i).value, s, i)).tokens);
      }
    }
  }

  /** A valid token written at `i`, followed by a character that cannot continue it, is scanned as that token. */
  lemma LexToken(t: Token, s: string, i: nat)
    requires ValidToken(t) && i + |t.text| <= |s| && s[i..i + |t.text|] == t.text
    requires i + |t.text| == |s| || !Extends(t.kind, s[i + |t.text|])
    ensures LexFrom(s, i) == Prepend([t], LexFrom(s, i + |t.text|))
  {
    MatchAt(t, s, i);
    FirstClassOf(s, i, t.kind);
  }

  /** A single space before a non-blank character is skipped. */
  lemma LexSpace(s: string, i: nat)
    requires i + 1 < |s| && s[i] == ' ' && !IsBlank(s[i + 1])
    ensures LexFrom(s, i) == LexFrom(s, i + 1)
  {
    FirstClassOf(s, i, Whitespace);
    assert MatchEnd(Whitespace, s, i) == i + 1;
    PrependNothing(LexFrom(s, i + 1));
  }

  /** `b` written right after `a` cannot be read as a continuation of `a`. */
  predicate Separate(a: Token, b: Token)
  {
    |b.text| == 0 || !Extends(a.kind, b.text[0])
  }

  /** The texts of the tokens from index `k` on, each followed by a single space when `spaced` says so and by nothing otherwise. */
  function SpellFrom(ts: seq<Token>, spaced: seq<bool>, k: nat): string
    requires |spaced| == |ts| && k <= |ts|
    decreases |ts| - k
  {
    if k == |ts| then []
    else ts[k].text + (if spaced[k] then " " else "") + SpellFrom(ts, spaced, k + 1)
  }

  /** The texts of all the tokens, spaced out as `spaced` says. */
  function Spell(ts: seq<Token>, spaced: seq<bool>): string
    requires |spaced| == |ts|
  {
    SpellFrom(ts, spaced, 0)
  }

  /** The requirements under which spelled-out tokens scan back to themselves. */
  predicate Spellable(ts: seq<Token>, spaced: seq<bool>)
  {
    && |spaced| == |ts| && (|ts| > 0 ==> !spaced[|ts| - 1])
    && (forall i :: 0 <= i < |ts| ==> ValidToken(ts[i]))
    && (forall i :: 0 <= i < |ts| - 1 ==> spaced[i] || Separate(ts[i], ts[i + 1]))
  }

  /**
   * The text from position `i` to its end spells the tokens from index `k`
   * on: each token's text, then a single space when `spaced` says so, and nothing else.
   */
  predicate SpelledAt(ts: seq<Token>, spaced: seq<bool>, k: nat, s: string, i: nat)
    requires |spaced| == |ts| && k <= |ts| && i <= |s|
    decreases |ts| - k
  {
    if k == |ts| then i == |s|
    else
      && After(ts, spaced, k, i) <= |s|
      && s[i..i + |ts[k].text|] == ts[k].text
      && (spaced[k] ==> s[i + |ts[k].text|] == ' ')
      && SpelledAt(ts, spaced, k + 1, s, After(ts, spaced, k, i))
  }

  /** Where the spelling of token `k` placed at `i` ends, its space included. */
  function After(ts: seq<Token>, spaced: seq<bool>, k: nat, i: nat): nat
    requires |spaced| == |ts| && k < |ts|
  {
    i + |ts[k].text| + (if spaced[k] then 1 else 0)
  }

  /** A text whose tail from `i` is the spelling of the tokens from `k` on spells them from `i`. */
  lemma {:induction false} SpellSpelled(ts: seq<Token>, spaced: seq<bool>, k: nat, s: string, i: nat)
    requires |spaced| == |ts| && k <= |ts| && i <= |s| && s[i..] == SpellFrom(ts, spaced, k)
    ensures SpelledAt(ts, spaced, k, s, i)
    decreases |ts| - k
  {
    if k < |ts| {
      SpellSplit(ts, spaced, k, s, i);
      SpellSpelled(ts, spaced, k + 1, s, After(ts, spaced, k, i));
      SpelledIntro(ts, spaced, k, s, i);
    } else {
      assert |s[i..]| == 0;
    }
  }

  /** How a spelling from token `k`, placed at `i`, splits into that token, the optional space and the rest. */
  lemma SpellSplit(ts: seq<Token>, spaced: seq<bool>, k: nat, s: string, i: nat)
    requires |spaced| == |ts| && k < |ts| && i <= |s| && s[i..] == SpellFrom(ts, spaced, k)
    ensures After(ts, spaced, k, i) <= |s|
    ensures s[i..i + |ts[k].text|] == ts[k].text
    ensures spaced[k] ==> s[i + |ts[k].text|] == ' '
    ensures s[After(ts, spaced, k, i)..] == SpellFrom(ts, spaced, k + 1)
  {
    Layout([], ts[k].text, if spaced[k] then " " else "", SpellFrom(ts, spaced, k + 1));
    assert s[i..] == [] + ts[k].text + (if spaced[k] then " " else "") + SpellFrom(ts, spaced, k + 1);
    assert s[After(ts, spaced, k, i)..] == s[i..][|ts[k].text| + (if spaced[k] then 1 else 0)..];
  }

  /** Token `k` written at `i`, with its space if any, followed by a spelling of the rest. */
  lemma SpelledIntro(ts: seq<Token>, spaced: seq<bool>, k: nat, s: string, i: nat)
    requires |spaced| == |ts| && k < |ts| && After(ts, spaced, k, i) <= |s|
    requires s[i..i + |ts[k].text|] == ts[k].text && (spaced[k] ==> s[i + |ts[k].text|] == ' ')
    requires SpelledAt(ts, spaced, k + 1, s, After(ts, spaced, k, i))
    ensures SpelledAt(ts, spaced, k, s, i)
  {
  }

  /** Where the parts of a concatenation lie in it. */
  lemma Layout(pre: string, text: string, gap: string, rest: string)
    ensures pre + text + gap + rest == pre + (text + gap + rest)
    ensures (pre + text + gap + rest)[|pre|..|pre| + |text|] == text
    ensures |gap| == 1 ==> (pre + text + gap + rest)[|pre| + |text|] == gap[0]
  {
    assert (pre + text + gap + rest)[|pre|..|pre| + |text|] == text by {
      assert forall p :: 0 <= p < |text| ==> (pre + text + gap + rest)[|pre|..|pre| + |text|][p] == text[p];
    }
  }

  /**
   * What follows a token of a spellable sequence: after its space, a
   * character that is not a blank; without a space, the end of the text or a
   * character that cannot continue the token.
   */
  lemma SpelledNext(ts: seq<Token>, spaced: seq<bool>, k: nat, s: string, i: nat)
    requires Spellable(ts, spaced) && k < |ts| && i <= |s| && SpelledAt(ts, spaced, k, s, i)
    ensures spaced[k] ==> i + |ts[k].text| + 1 < |s| && !IsBlank(s[i + |ts[k].text| + 1])
    ensures !spaced[k] ==> i + |ts[k].text| == |s| || !Extends(ts[k].kind, s[i + |ts[k].text|])
  {
    if k + 1 < |ts| {
      MatchNotBlank(ts[k + 1].kind, ts[k + 1].text, 0);
      assert s[i + |ts[k].text| + (if spaced[k] then 1 else 0)]
          == s[i + |ts[k].text| + (if spaced[k] then 1 else 0)..i + |ts[k].text| + (if spaced[k] then 1 else 0) + |ts[k + 1].text|][0];
    }
  }

  /** A valid token is scanned where it is written, and a single space after it skipped. */
  lemma LexTokenSpace(t: Token, s: string, i: nat)
    requires ValidToken(t) && i + |t.text| + 1 < |s| && s[i..i + |t.text|] == t.text
    requires s[i + |t.text|] == ' ' && !IsBlank(s[i + |t.text| + 1])
    ensures LexFrom(s, i) == Prepend([t], LexFrom(s, i + |t.text| + 1))
  {
    LexToken(t, s, i);
    LexSpace(s, i + |t.text|);
  }

  /** The rest of a spelling after token `k` spells the remaining tokens. */
  lemma SpelledRest(ts: seq<Token>, spaced: seq<bool>, k: nat, s: string, i: nat)
    requires |spaced| == |ts| && k < |ts| && i <= |s| && SpelledAt(ts, spaced, k, s, i)
    ensures After(ts, spaced, k, i) <= |s| && SpelledAt(ts, spaced, k + 1, s, After(ts, spaced, k, i))
  {
  }

  /** One token of a spelling is scanned, and the scan goes on after it and its space. */
  lemma LexSpellStep(ts: seq<Token>, spaced: seq<bool>, k: nat, s: string, i: nat)
    requires Spellable(ts, spaced) && k < |ts| && i <= |s| && SpelledAt(ts, spaced, k, s, i)
    requires After(ts, spaced, k, i) <= |s|
    ensures LexFrom(s, i) == Prepend([ts[k]], LexFrom(s, After(ts, spaced, k, i)))
  {
    SpelledNext(ts, spaced, k, s, i);
    if spaced[k] {
      LexTokenSpace(ts[k], s, i);
    } else {
      LexToken(ts[k], s, i);
    }
  }

  lemma PrependNext(ts: seq<Token>, k: nat, r: LexResult)
    requires k < |ts| && r == Tokens(ts[k + 1..])
    ensures Prepend([ts[k]], r) == Tokens(ts[k..])
  {
    assert [ts[k]] + ts[k + 1..] == ts[k..];
  }

  /**
   * Valid tokens written with or without a space between neighbours, from
   * index `k` on, at position `i` of a text and up to its end, scan back to
   * the same tokens, provided that wherever there is no space the next
   * token's first character cannot continue the previous token.
   */
  lemma {:induction false} LexSpellAt(ts: seq<Token>, spaced: seq<bool>, k: nat, s: string, i: nat)
    requires Spellable(ts, spaced) && k <= |ts| && i <= |s| && SpelledAt(ts, spaced, k, s, i)
    ensures LexFrom(s, i) == Tokens(ts[k..])
    decreases |ts| - k
  {
    if k == |ts| {
      assert ts[k..] == [];
    } else {
      SpelledRest(ts, spaced, k, s, i);
      LexSpellStep(ts, spaced, k, s, i);
      LexSpellAt(ts, spaced, k + 1, s, After(ts, spaced, k, i));
      PrependNext(ts, k, LexFrom(s, After(ts, spaced, k, i)));
    }
  }

  /** The whole-text form: spelled-out tokens scan back to themselves. */
  lemma LexSpell(ts: seq<Token>, spaced: seq<bool>)
    requires Spellable(ts, spaced)
    ensures Lex(Spell(ts, spaced)) == Tokens(ts)
  {
    SpellSpelled(ts, spaced, 0, Spell(ts, spaced), 0);
    LexSpellAt(ts, spaced, 0, Spell(ts, spaced), 0);
    assert ts[0..] == ts;
  }
}
