/** Cutting SQL text into tokens (`tokenize.c`).

    A text is a sequence of non-zero characters; reading one place past its end gives
    the terminator, and reading further is not possible in the model.
 */
module Tokenizer {

  datatype Tok =
    | Space | Comment | Minus | LP | RP | Semi | Plus | Star | Slash | Rem | Eq | Le | Ne | LShift | Lt
    | Ge | RShift | Gt | Illegal | BitOr | Concat | Comma | BitAnd | BitNot | String | Dot | Integer | Float
    | Id | Variable | Variable1 | Register | Blob | Keyword(code: nat)

  const NUL: char := 0 as char

  /** The text has no terminator inside. */
  predicate IsText(z: string) {
    forall i :: 0 <= i < |z| ==> z[i] != NUL
  }

  function At(z: string, i: int): char
    requires 0 <= i <= |z|
  {
    if i < |z| then z[i] else NUL
  }

  predicate IsSpace(c: char) {
    c == ' ' || '\t' <= c <= '\r'
  }

  predicate IsDigit(c: char) {
    '0' <= c <= '9'
  }

  predicate IsHex(c: char) {
    IsDigit(c) || 'a' <= c <= 'f' || 'A' <= c <= 'F'
  }

  predicate IsAlnum(c: char) {
    IsDigit(c) || 'a' <= c <= 'z' || 'A' <= c <= 'Z'
  }

  predicate IdChar(c: char) {
    c >= 128 as char || IsAlnum(c) || c == '_' || c == '$'
  }

  // ----- where a token ends

  /** The end of the longest stretch from `i` on whose characters satisfy `p`. */
  function Skip(z: string, i: nat, p: char -> bool): (r: nat)
    requires i <= |z|
    ensures i <= r <= |z|
    decreases |z| - i
  {
    if i < |z| && p(z[i]) then Skip(z, i + 1, p) else i
  }

  /** Just after the closing delimiter, which doubled delimiters are not; or no such place. */
  function QuoteEnd(z: string, i: nat, delim: char): (r: (bool, nat))
    requires i <= |z|
    ensures i <= r.1 <= |z| && (r.0 ==> i < r.1)
    decreases |z| - i
  {
    if i == |z| then (false, i)
    else if z[i] != delim then QuoteEnd(z, i + 1, delim)
    else if At(z, i + 1) == delim && i + 1 < |z| then QuoteEnd(z, i + 2, delim)
    else (true, i + 1)
  }

  /** Just after the first `*` `/` whose slash is at `i` or later, else the end. */
  function BlockEnd(z: string, i: nat): (r: nat)
    requires 0 < i <= |z|
    ensures i <= r <= |z|
    decreases |z| - i
  {
    if i == |z| then i
    else if z[i - 1] == '*' && z[i] == '/' then i + 1
    else BlockEnd(z, i + 1)
  }

  /** A name with `::` and at most one parenthesised suffix: its end, whether it has a
      name character, and whether the suffix is broken off. */
  function NameEnd(z: string, i: nat, named: bool): (r: (nat, bool, bool))
    requires i <= |z|
    ensures i <= r.0 <= |z|
    decreases |z| - i
  {
    if i == |z| then (i, named, false)
    else if IdChar(z[i]) then NameEnd(z, i + 1, true)
    else if z[i] == '(' && named then
      var j := Skip(z, i + 1, InSuffix);
      if At(z, j) == ')' then (j + 1, named, false) else (j, named, true)
    else if z[i] == ':' && At(z, i + 1) == ':' then NameEnd(z, i + 2, named)
    else (i, named, false)
  }

  predicate NotNewline(c: char) {
    c != '\n'
  }

  predicate NotBracket(c: char) {
    c != ']'
  }

  predicate InSuffix(c: char) {
    !IsSpace(c) && c != ')'
  }

  lemma {:induction false} SkipIsLongest(z: string, i: nat, p: char -> bool)
    requires i <= |z|
    ensures var r := Skip(z, i, p); (forall k :: i <= k < r ==> p(z[k])) && (r < |z| ==> !p(z[r]))
    decreases |z| - i
  {
    if i < |z| && p(z[i]) { SkipIsLongest(z, i + 1, p); }
  }

  predicate Closes(z: string, k: int)
    requires 0 < k < |z|
  {
    z[k - 1] == '*' && z[k] == '/'
  }

  lemma {:induction false} BlockEndIsFirst(z: string, i: nat)
    requires 0 < i <= |z|
    ensures var r := BlockEnd(z, i);
            && (forall k :: i <= k < r - 1 ==> !Closes(z, k))
            && (r == |z| || Closes(z, r - 1))
    decreases |z| - i
  {
    if i < |z| && !(z[i - 1] == '*' && z[i] == '/') { BlockEndIsFirst(z, i + 1); }
  }

  // ----- one token

  /** The exponent of a number, if one starts at `i`. */
  predicate HasExponent(z: string, i: nat)
    requires i <= |z|
  {
    && i < |z| && (z[i] == 'e' || z[i] == 'E')
    && i + 1 < |z|
    && (IsDigit(z[i + 1]) || ((z[i + 1] == '+' || z[i + 1] == '-') && i + 2 < |z| && IsDigit(z[i + 2])))
  }

  function Number(z: string): (Tok, nat) {
    var i := Skip(z, 0, IsDigit);
    var dot := i < |z| && z[i] == '.';
    var j := if dot then Skip(z, i + 1, IsDigit) else i;
    if HasExponent(z, j) then (Float, Skip(z, j + 2, IsDigit)) else (if dot then Float else Integer, j)
  }

  function VariableToken(z: string): (Tok, nat)
    requires z != ""
  {
    var double := z[0] == '@' && At(z, 1) == '@';
    var (end, named, broken) := NameEnd(z, if double then 2 else 1, false);
    (if !named || broken then Illegal else if double then Variable1 else Variable, end)
  }

  function BlobToken(z: string): (Tok, nat)
    requires |z| > 1
  {
    var i := Skip(z, 2, IsHex);
    if i == |z| then (Blob, i)
    else if z[i] == z[1] then (if i % 2 == 1 then Illegal else Blob, i + 1)
    else (Illegal, i)
  }

  /** Tokens of one or two fixed characters; `d` is the second character of the text. */
  function Operator(c: char, d: char): (Tok, nat) {
    if c == '-' then (Minus, 1)
    else if c == '(' then (LP, 1)
    else if c == ')' then (RP, 1)
    else if c == ';' then (Semi, 1)
    else if c == '+' then (Plus, 1)
    else if c == '*' then (Star, 1)
    else if c == '/' then (Slash, 1)
    else if c == '%' then (Rem, 1)
    else if c == '=' then (Eq, if d == '=' then 2 else 1)
    else if c == '<' then if d == '=' then (Le, 2) else if d == '>' then (Ne, 2) else if d == '<' then (LShift, 2) else (Lt, 1)
    else if c == '>' then if d == '=' then (Ge, 2) else if d == '>' then (RShift, 2) else (Gt, 1)
    else if c == '!' then (if d == '=' then Ne else Illegal, 2)
    else if c == '|' then if d == '|' then (Concat, 2) else (BitOr, 1)
    else if c == ',' then (Comma, 1)
    else if c == '&' then (BitAnd, 1)
    else if c == '~' then (BitNot, 1)
    else if c == '.' then (Dot, 1)
    else (Illegal, 1)
  }

  /** The first token of a text: its type and its length.  `kw` is the keyword table. */
  function Lex(z: string, kw: string -> Tok): (Tok, nat)
    requires z != ""
  {
    var c, d := z[0], At(z, 1);
    if IsSpace(c) && c != 11 as char then (Space, Skip(z, 1, IsSpace))
    else if c == '-' && d == '-' then (Comment, Skip(z, 2, NotNewline))
    else if c == '/' && d == '*' && 2 < |z| then (Comment, BlockEnd(z, 3))
    else if c == '`' || c == '\'' || c == '"' then
      var (closed, end) := QuoteEnd(z, 1, c);
      (if closed then String else Illegal, end)
    else if IsDigit(c) || (c == '.' && IsDigit(d)) then Number(z)
    else if c == '[' then
      var i := Skip(z, 1, NotBracket);
      (Id, if i < |z| then i + 1 else i)
    else if c == '?' then (Variable, Skip(z, 1, IsDigit))
    else if c == '#' && IsDigit(d) then (Register, Skip(z, 1, IsDigit))
    else if c == '#' || c == '$' || c == '@' || c == ':' then VariableToken(z)
    else if (c == 'x' || c == 'X') && (d == '\'' || d == '"') then BlobToken(z)
    else if IdChar(c) then
      var i := Skip(z, 1, IdChar);
      (kw(z[..i]), i)
    else Operator(c, d)
  }

  // ----- the scanner

  method SkipWhile(z: string, start: nat, p: char -> bool) returns (i: nat)
    requires IsText(z) && start <= |z| && !p(NUL)
    ensures i == Skip(z, start, p)
  {
    i := start;
    while p(At(z, i))
      invariant i <= |z| && Skip(z, i, p) == Skip(z, start, p)
      decreases |z| - i
    {
      i := i + 1;
    }
  }

  method ScanLine(z: string) returns (i: nat)
    requires IsText(z) && |z| > 1
    ensures i == Skip(z, 2, NotNewline)
  {
    i := 2;
    while At(z, i) != NUL && At(z, i) != '\n'
      invariant i <= |z| && Skip(z, i, NotNewline) == Skip(z, 2, NotNewline)
      decreases |z| - i
    {
      i := i + 1;
    }
  }

  method ScanBlock(z: string) returns (i: nat)
    requires IsText(z) && |z| > 2
    ensures i == BlockEnd(z, 3)
  {
    i := 3;
    var c := z[2];
    while c != '*' || At(z, i) != '/'
      invariant 3 <= i <= |z| && c == z[i - 1] && BlockEnd(z, i) == BlockEnd(z, 3)
      decreases |z| - i
    {
      c := At(z, i);
      if c == NUL {
        break;
      }
      i := i + 1;
    }
    if c != NUL {
      i := i + 1;
    }
  }

  method ScanQuoted(z: string) returns (t: Tok, i: nat)
    requires IsText(z) && z != "" && z[0] != NUL
    ensures var (closed, end) := QuoteEnd(z, 1, z[0]); (t, i) == (if closed then String else Illegal, end)
  {
    var delim := z[0];
    i := 1;
    while At(z, i) != NUL
      invariant 1 <= i <= |z| && QuoteEnd(z, i, delim) == QuoteEnd(z, 1, delim)
      decreases |z| - i
    {
      if At(z, i) == delim {
        if At(z, i + 1) == delim {
          i := i + 1;
        } else {
          break;
        }
      }
      i := i + 1;
    }
    if At(z, i) != NUL {
      return String, i + 1;
    } else {
      return Illegal, i;
    }
  }

  method ScanNumber(z: string) returns (t: Tok, i: nat)
    requires IsText(z)
    ensures (t, i) == Number(z)
  {
    t := Integer;
    i := SkipWhile(z, 0, IsDigit);
    if At(z, i) == '.' {
      i := SkipWhile(z, i + 1, IsDigit);
      t := Float;
    }
    if (At(z, i) == 'e' || At(z, i) == 'E')
       && (IsDigit(At(z, i + 1)) || ((At(z, i + 1) == '+' || At(z, i + 1) == '-') && IsDigit(At(z, i + 2))))
    {
      i := SkipWhile(z, i + 2, IsDigit);
      t := Float;
    }
  }

  method ScanBracket(z: string) returns (i: nat)
    requires IsText(z) && z != "" && z[0] != ']'
    ensures var e := Skip(z, 1, NotBracket); i == if e < |z| then e + 1 else e
  {
    i := 1;
    var c := z[0];
    ghost var e := Skip(z, 1, NotBracket);
    while c != ']'
      invariant 1 <= i <= |z|
      invariant c == z[i - 1] && if c == ']' then e == i - 1 else Skip(z, i, NotBracket) == e
      decreases |z| - i, c != ']'
    {
      c := At(z, i);
      if c == NUL {
        assert e == i;
        break;
      }
      i := i + 1;
    }
  }

  method ScanVariable(z: string) returns (t: Tok, i: nat)
    requires IsText(z) && z != ""
    ensures (t, i) == VariableToken(z)
  {
    var n := 0;
    if z[0] == '@' && At(z, 1) == '@' {
      t, i := Variable1, 2;
    } else {
      t, i := Variable, 1;
    }
    ghost var t0, goal := t, NameEnd(z, i, false);
    while At(z, i) != NUL
      invariant i <= |z| && t == t0 && n >= 0 && NameEnd(z, i, n > 0) == goal
      decreases |z| - i
    {
      if IdChar(At(z, i)) {
        n := n + 1;
      } else if At(z, i) == '(' && n > 0 {
        i := ScanSuffix(z, i);
        if At(z, i) == ')' {
          i := i + 1;
        } else {
          t := Illegal;
        }
        break;
      } else if At(z, i) == ':' && At(z, i + 1) == ':' {
        i := i + 1;
      } else {
        break;
      }
      i := i + 1;
    }
    if n == 0 {
      t := Illegal;
    }
  }

  method ScanSuffix(z: string, open: nat) returns (i: nat)
    requires IsText(z) && open < |z|
    ensures i == Skip(z, open + 1, InSuffix)
  {
    i := open + 1;
    while At(z, i) != NUL && !IsSpace(At(z, i)) && At(z, i) != ')'
      invariant i <= |z| && Skip(z, i, InSuffix) == Skip(z, open + 1, InSuffix)
      decreases |z| - i
    {
      i := i + 1;
    }
  }

  method ScanBlob(z: string) returns (t: Tok, i: nat)
    requires IsText(z) && |z| > 1 && !IsHex(z[1])
    ensures (t, i) == BlobToken(z)
  {
    var delim := z[1];
    t, i := Blob, 2;
    while At(z, i) != NUL
      invariant 2 <= i <= |z| && t == Blob && Skip(z, i, IsHex) == Skip(z, 2, IsHex)
      decreases |z| - i
    {
      if At(z, i) == delim {
        if i % 2 == 1 {
          t := Illegal;
        }
        break;
      }
      if !IsHex(At(z, i)) {
        return Illegal, i;
      }
      i := i + 1;
    }
    if At(z, i) != NUL {
      i := i + 1;
    }
  }

  method GetToken(z: string, kw: string -> Tok) returns (t: Tok, n: nat)
    requires IsText(z) && z != ""
    ensures (t, n) == Lex(z, kw)
  {
    var c := z[0];
    if c == ' ' || c == '\t' || c == '\n' || c == 12 as char || c == '\r' {
      n := SkipWhile(z, 1, IsSpace);
      return Space, n;
    } else if c == '-' && At(z, 1) == '-' {
      n := ScanLine(z);
      return Comment, n;
    } else if c == '/' && At(z, 1) == '*' && At(z, 2) != NUL {
      n := ScanBlock(z);
      return Comment, n;
    } else if c == '`' || c == '\'' || c == '"' {
      t, n := ScanQuoted(z);
    } else if IsDigit(c) || (c == '.' && IsDigit(At(z, 1))) {
      t, n := ScanNumber(z);
    } else if c == '[' {
      n := ScanBracket(z);
      return Id, n;
    } else if c == '?' {
      n := SkipWhile(z, 1, IsDigit);
      return Variable, n;
    } else if c == '#' || c == '$' || c == '@' || c == ':' {
      n := SkipWhile(z, 1, IsDigit);
      if c == '#' && n > 1 {
        return Register, n;
      }
      t, n := ScanVariable(z);
    } else if (c == 'x' || c == 'X') && (At(z, 1) == '\'' || At(z, 1) == '"') {
      t, n := ScanBlob(z);
    } else if IdChar(c) {
      n := SkipWhile(z, 1, IdChar);
      t := kw(z[..n]);
    } else {
      var r := Operator(c, At(z, 1));
      t, n := r.0, r.1;
    }
  }

  /** No token is empty, and a token stays within the text if and only if the text is not
      a lone exclamation mark. */
  lemma TokenFits(z: string, kw: string -> Tok)
    requires z != ""
    ensures Lex(z, kw).1 >= 1
    ensures Lex(z, kw).1 <= |z| <==> z != "!"
  {
    if IsDigit(z[0]) || (z[0] == '.' && IsDigit(At(z, 1))) {
      NumberFits(z);
    }
    OperatorFits(z);
  }

  lemma NumberFits(z: string)
    requires z != "" && (IsDigit(z[0]) || (z[0] == '.' && IsDigit(At(z, 1))))
    ensures 1 <= Number(z).1 <= |z|
  {}

  lemma OperatorFits(z: string)
    requires z != ""
    ensures var n := Operator(z[0], At(z, 1)).1; 1 <= n && (n <= |z| <==> z != "!")
  {}

  // ----- the whole text

  /** A token of a text: its type, where it starts and its length. */
  datatype Token = Token(kind: Tok, start: nat, n: nat)

  /** The scanner as a value. */
  function Lexer(kw: string -> Tok): string -> (Tok, nat) {
    s => if s == "" then (Illegal, 1) else Lex(s, kw)
  }

  ghost predicate Agrees(lex: string -> (Tok, nat), kw: string -> Tok, s: string) {
    s != "" ==> lex(s) == Lex(s, kw)
  }

  ghost predicate IsLexer(lex: string -> (Tok, nat), kw: string -> Tok) {
    forall s {:trigger Agrees(lex, kw, s)} :: Agrees(lex, kw, s)
  }

  ghost predicate Fits(lex: string -> (Tok, nat), s: string) {
    s != "" ==> lex(s).1 >= 1 && (lex(s).1 <= |s| <==> s != "!")
  }

  /** All that cutting needs of a scanner. */
  ghost predicate Scans(lex: string -> (Tok, nat)) {
    forall s {:trigger Fits(lex, s)} :: Fits(lex, s)
  }

  lemma LexerScans(kw: string -> Tok)
    ensures Scans(Lexer(kw))
  {
    forall s ensures Fits(Lexer(kw), s) {
      if s != "" { TokenFits(s, kw); }
    }
  }

  function TokenAt(z: string, i: nat, lex: string -> (Tok, nat)): Token
    requires i < |z|
  {
    Token(lex(z[i..]).0, i, lex(z[i..]).1)
  }

  lemma StepFits(z: string, i: nat, lex: string -> (Tok, nat))
    requires i < |z| && Scans(lex)
    ensures TokenAt(z, i, lex).n >= 1 && (i + TokenAt(z, i, lex).n <= |z| <==> z[i..] != "!")
  {
    assert Fits(lex, z[i..]);
  }

  /** The tokens from `i` on; a token that runs past the terminator ends the list. */
  ghost function Cut(z: string, i: nat, lex: string -> (Tok, nat)): seq<Token>
    requires i <= |z| && Scans(lex)
    decreases |z| - i
  {
    if i == |z| then []
    else
      var t := TokenAt(z, i, lex);
      StepFits(z, i, lex);
      if i + t.n > |z| then [t] else [t] + Cut(z, i + t.n, lex)
  }

  /** Cutting from `i` on comes to a final exclamation mark that starts a token. */
  ghost predicate Overruns(z: string, i: nat, lex: string -> (Tok, nat))
    requires i <= |z| && Scans(lex)
    decreases |z| - i
  {
    if i == |z| then false
    else
      StepFits(z, i, lex);
      z[i..] == "!" || Overruns(z, i + TokenAt(z, i, lex).n, lex)
  }

  function NonSpace(ts: seq<Token>): seq<Token> {
    if ts == [] then [] else if ts[0].kind == Space then NonSpace(ts[1..]) else [ts[0]] + NonSpace(ts[1..])
  }

  /** The token at the cursor, added to the list unless it is white space. */
  method NextToken(z: string, i: nat, kw: string -> Tok, tokens: seq<Token>, ghost lex: string -> (Tok, nat))
    returns (t: Tok, n: nat, more: seq<Token>)
    requires IsText(z) && i < |z| && IsLexer(lex, kw)
    ensures (t, n) == lex(z[i..])
    ensures more == if t == Space then tokens else tokens + [Token(t, i, n)]
  {
    assert Agrees(lex, kw, z[i..]);
    t, n := GetToken(z[i..], kw);
    more := tokens;
    if t != Space {
      more := tokens + [Token(t, i, n)];
    }
  }

  /** What both loops keep: the tokens so far and those still to come make up `all`. */
  ghost predicate SoFar(z: string, i: int, lex: string -> (Tok, nat), tokens: seq<Token>, all: seq<Token>, over: bool) {
    && 0 <= i <= |z| && Scans(lex)
    && Overruns(z, i, lex) == over
    && tokens + NonSpace(Cut(z, i, lex)) == all
  }

  lemma Turn(z: string, i: nat, lex: string -> (Tok, nat), tokens: seq<Token>, all: seq<Token>, over: bool,
             t: Tok, n: nat, more: seq<Token>)
    requires i < |z| && SoFar(z, i, lex, tokens, all, over) && (t, n) == lex(z[i..])
    requires more == if t == Space then tokens else tokens + [Token(t, i, n)]
    ensures n >= 1
    ensures i + n <= |z| ==> SoFar(z, i + n, lex, more, all, over)
    ensures i + n > |z| ==> over && more == all
  {
    CutStep(z, i, lex);
    var mine := if t == Space then [] else [Token(t, i, n)];
    assert more == tokens + mine;
    if i + n <= |z| {
      var rest := NonSpace(Cut(z, i + n, lex));
      assert tokens + (mine + rest) == (tokens + mine) + rest;
    }
  }

  /** `sqlite3RunParser`: cut and feed the parser until something stops it, then cut the
      rest.  `interrupt(k)` and `fails(k)` say what happens at the `k`-th token.  If the
      cursor passes the terminator, what the source does next is not defined. */
  method RunParser(z: string, kw: string -> Tok, interrupt: nat -> bool, fails: nat -> bool)
    returns (tokens: seq<Token>, overrun: bool)
    requires IsText(z)
    ensures Scans(Lexer(kw))
    ensures overrun == Overruns(z, 0, Lexer(kw))
    ensures tokens == NonSpace(Cut(z, 0, Lexer(kw)))
  {
    LexerScans(kw);
    ghost var lex := Lexer(kw);
    assert forall s :: Agrees(lex, kw, s);
    tokens, overrun := CutText(z, kw, interrupt, fails, lex, NonSpace(Cut(z, 0, lex)), Overruns(z, 0, lex));
  }

  method CutText(z: string, kw: string -> Tok, interrupt: nat -> bool, fails: nat -> bool,
                 ghost lex: string -> (Tok, nat), ghost all: seq<Token>, ghost over: bool)
    returns (tokens: seq<Token>, overrun: bool)
    requires IsText(z) && IsLexer(lex, kw) && SoFar(z, 0, lex, [], all, over)
    ensures tokens == all && overrun == over
  {
    var i, k := 0, 0;
    tokens := [];
    while At(z, i) != NUL
      invariant k >= 0 && SoFar(z, i, lex, tokens, all, over)
      decreases |z| - i
    {
      var t, n, more := NextToken(z, i, kw, tokens, lex);
      Turn(z, i, lex, tokens, all, over, t, n, more);
      tokens := more;
      i := i + n;
      if i > |z| {
        return tokens, true;
      }
      k := k + 1;
      if t == Space || t == Comment {
        if interrupt(k) {
          break;
        }
      } else if t == Illegal {
        break;
      } else if fails(k) {
        break;
      }
    }
    tokens, overrun := CutRest(z, i, kw, tokens, lex, all, over);
  }

  /** The loop after `abort_parse`. */
  method CutRest(z: string, from: nat, kw: string -> Tok, given: seq<Token>,
                 ghost lex: string -> (Tok, nat), ghost all: seq<Token>, ghost over: bool)
    returns (tokens: seq<Token>, overrun: bool)
    requires IsText(z) && IsLexer(lex, kw) && SoFar(z, from, lex, given, all, over)
    ensures tokens == all && overrun == over
  {
    var i := from;
    tokens := given;
    while At(z, i) != NUL
      invariant SoFar(z, i, lex, tokens, all, over)
      decreases |z| - i
    {
      var t, n, more := NextToken(z, i, kw, tokens, lex);
      Turn(z, i, lex, tokens, all, over, t, n, more);
      tokens := more;
      i := i + n;
      if i > |z| {
        return tokens, true;
      }
    }
    assert NonSpace(Cut(z, i, lex)) == [];
    return tokens, false;
  }

  lemma CutStep(z: string, i: nat, lex: string -> (Tok, nat))
    requires i < |z| && Scans(lex)
    ensures var t := TokenAt(z, i, lex);
            var mine := if t.kind == Space then [] else [t];
            && t.n >= 1
            && (i + t.n <= |z| ==>
                  && Cut(z, i, lex) == [t] + Cut(z, i + t.n, lex)
                  && NonSpace(Cut(z, i, lex)) == mine + NonSpace(Cut(z, i + t.n, lex))
                  && Overruns(z, i, lex) == Overruns(z, i + t.n, lex))
            && (i + t.n > |z| ==>
                  && z[i..] == "!" && Overruns(z, i, lex)
                  && Cut(z, i, lex) == [t] && NonSpace(Cut(z, i, lex)) == mine)
  {
    StepFits(z, i, lex);
    var t := TokenAt(z, i, lex);
    if i + t.n <= |z| {
      var rest := Cut(z, i + t.n, lex);
      assert ([t] + rest)[1..] == rest;
    }
  }

  /** Every token starts where the one before ends, and the last one ends with the text. */
  ghost predicate Tiles(z: string, i: int, ts: seq<Token>)
    decreases |ts|
  {
    if ts == [] then i == |z| else ts[0].start == i && ts[0].n >= 1 && Tiles(z, i + ts[0].n, ts[1..])
  }

  function Lexemes(z: string, ts: seq<Token>): string {
    if ts == [] then ""
    else
      (if ts[0].start + ts[0].n <= |z| then z[ts[0].start..ts[0].start + ts[0].n] else "") + Lexemes(z, ts[1..])
  }

  lemma {:induction false} TilesCover(z: string, i: nat, ts: seq<Token>)
    requires Tiles(z, i, ts)
    ensures i <= |z| && Lexemes(z, ts) == z[i..]
    decreases |ts|
  {
    if ts != [] {
      TilesCover(z, i + ts[0].n, ts[1..]);
    }
  }

  lemma {:induction false} CutTiles(z: string, i: nat, lex: string -> (Tok, nat))
    requires i <= |z| && Scans(lex)
    ensures Tiles(z, i, Cut(z, i, lex)) <==> !Overruns(z, i, lex)
    decreases |z| - i
  {
    if i < |z| {
      CutStep(z, i, lex);
      var t, ts := TokenAt(z, i, lex), Cut(z, i, lex);
      if i + t.n <= |z| {
        CutTiles(z, i + t.n, lex);
        assert ts[1..] == Cut(z, i + t.n, lex);
      } else {
        assert ts[1..] == [];
      }
    }
  }

  /** The tokens tile the text, so that the lexemes concatenate to it, if and only if
      cutting does not come to a final exclamation mark. */
  lemma LexemesAreTheText(z: string, lex: string -> (Tok, nat))
    requires Scans(lex)
    ensures Tiles(z, 0, Cut(z, 0, lex)) <==> !Overruns(z, 0, lex)
    ensures !Overruns(z, 0, lex) ==> Lexemes(z, Cut(z, 0, lex)) == z
    ensures (z == "" || z[|z| - 1] != '!') ==> !Overruns(z, 0, lex)
  {
    CutTiles(z, 0, lex);
    if !Overruns(z, 0, lex) {
      TilesCover(z, 0, Cut(z, 0, lex));
    }
    OverrunEndsInBang(z, 0, lex);
  }

  lemma {:induction false} OverrunEndsInBang(z: string, i: nat, lex: string -> (Tok, nat))
    requires i <= |z| && Scans(lex)
    ensures Overruns(z, i, lex) ==> z != "" && z[|z| - 1] == '!'
    decreases |z| - i
  {
    if i < |z| {
      CutStep(z, i, lex);
      var t := TokenAt(z, i, lex);
      if i + t.n <= |z| {
        OverrunEndsInBang(z, i + t.n, lex);
      } else {
        assert |z[i..]| == 1 && z[i..][0] == z[i];
      }
    }
  }

  /** A text that ends in an exclamation mark overruns or not, depending on what is before. */
  lemma BangExamples(kw: string -> Tok)
    ensures Scans(Lexer(kw)) && Overruns("!", 0, Lexer(kw)) && !Overruns("!!", 0, Lexer(kw))
  {
    LexerScans(kw);
    assert "!"[0..] == "!";
    CutStep("!!", 0, Lexer(kw));
    assert "!!"[0..] == "!!" && Lex("!!", kw) == (Illegal, 2);
  }
}
