module TokenTable {
  // What the scanner takes for a token, said of the texts alone: operators by a table
  // with longest match, numbers, variables and blobs by their grammar.

  import opened Tokenizer

  // ----- operators

  /** The operators and punctuation of the language with their token types. */
  function Table(): seq<(string, Tok)> {
    [("-", Minus), ("(", LP), (")", RP), (";", Semi), ("+", Plus), ("*", Star), ("/", Slash), ("%", Rem),
     ("=", Eq), ("==", Eq), ("<", Lt), ("<=", Le), ("<>", Ne), ("<<", LShift), (">", Gt), (">=", Ge), (">>", RShift),
     ("!=", Ne), ("|", BitOr), ("||", Concat), (",", Comma), ("&", BitAnd), ("~", BitNot), (".", Dot)]
  }

  ghost predicate Matches(z: string, k: int) {
    0 <= k < |Table()| && Table()[k].0 <= z
  }

  /** Entry `k` is the longest one that the text begins with. */
  ghost predicate Longest(z: string, k: int) {
    Matches(z, k) && forall j :: Matches(z, j) ==> |Table()[j].0| <= |Table()[k].0|
  }

  ghost predicate BeginsComment(z: string) {
    "--" <= z || ("/*" <= z && |z| > 2)
  }

  ghost predicate BeginsNumber(z: string) {
    z != "" && (IsDigit(z[0]) || (z[0] == '.' && |z| > 1 && IsDigit(z[1])))
  }

  /** The characters that begin an operator. */
  predicate OperatorChar(c: char) {
    || c == '-' || c == '(' || c == ')' || c == ';' || c == '+' || c == '*' || c == '/' || c == '%' || c == '='
    || c == '<' || c == '>' || c == '!' || c == '|' || c == ',' || c == '&' || c == '~' || c == '.'
  }

  lemma Prefix1(z: string, c: char)
    requires z != ""
    ensures [c] <= z <==> z[0] == c
  {}

  lemma Prefix2(z: string, c: char, d: char)
    requires z != ""
    ensures [c, d] <= z <==> z[0] == c && |z| > 1 && z[1] == d
  {}

  /** The scanner's choice among the operators, when the text is neither a comment nor
      a number. */
  lemma LexIsOperator(z: string, kw: string -> Tok)
    requires z != "" && OperatorChar(z[0]) && !BeginsComment(z) && !BeginsNumber(z)
    ensures Lex(z, kw) == Operator(z[0], At(z, 1))
  {
    Prefix2(z, '-', '-');
    Prefix2(z, '/', '*');
  }

  lemma EntryShape(k: int)
    requires 0 <= k < |Table()|
    ensures var w := Table()[k].0; (|w| == 1 || |w| == 2) && OperatorChar(w[0]) && (|w| == 2 ==> w[1] != NUL)
  {}

  lemma EntryOfTwo(k: int)
    requires 0 <= k < |Table()| && |Table()[k].0| == 2
    ensures var (w, t) := Table()[k]; Operator(w[0], w[1]) == (t, 2)
  {}

  lemma EntryOfOne(k: int, d: char)
    requires 0 <= k < |Table()| && |Table()[k].0| == 1 && Operator(Table()[k].0[0], d).1 == 1
    ensures Operator(Table()[k].0[0], d).0 == Table()[k].1
  {
    if k < 9 { EarlyEntry(k, d); } else { LateEntry(k, d); }
  }

  lemma EarlyEntry(k: int, d: char)
    requires 0 <= k < 9
    ensures var (w, t) := Table()[k]; |w| == 1 && Operator(w[0], d).0 == t
  {}

  lemma LateEntry(k: int, d: char)
    requires 9 <= k < |Table()| && |Table()[k].0| == 1 && Operator(Table()[k].0[0], d).1 == 1
    ensures Operator(Table()[k].0[0], d).0 == Table()[k].1
  {}

  /** A choice of two characters, other than the lone exclamation mark, is in the table. */
  lemma TwoIsEntry(c: char, d: char)
    requires OperatorChar(c) && Operator(c, d).1 == 2 && (c != '!' || d == '=')
    ensures exists k :: 0 <= k < |Table()| && Table()[k].0 == [c, d]
  {
    assert Table()[9].0 == "==";
    assert Table()[11].0 == "<=";
    assert Table()[12].0 == "<>";
    assert Table()[13].0 == "<<";
    assert Table()[15].0 == ">=";
    assert Table()[16].0 == ">>";
    assert Table()[17].0 == "!=";
    assert Table()[19].0 == "||";
    assert d == '=' || d == '>' || d == '<' || d == '|';
  }

  lemma TwoMatches(z: string)
    requires IsText(z) && z != "" && OperatorChar(z[0]) && z[0] != '!' && Operator(z[0], At(z, 1)).1 == 2
    ensures exists j :: Matches(z, j) && |Table()[j].0| == 2
  {
    var d := At(z, 1);
    OneOrTwo(z[0], d);
    TwoIsEntry(z[0], d);
    var j :| 0 <= j < |Table()| && Table()[j].0 == [z[0], d];
    Prefix2(z, z[0], d);
    assert Matches(z, j);
  }

  /** Longest match: a text that begins with an operator, and is neither a comment nor a
      number, is cut off at the longest operator of the table, with its type. */
  lemma OperatorsByLongestMatch(z: string, k: int, kw: string -> Tok)
    requires IsText(z) && Longest(z, k) && !BeginsComment(z) && !BeginsNumber(z)
    ensures Lex(z, kw) == (Table()[k].1, |Table()[k].0|)
  {
    var w := Table()[k].0;
    EntryShape(k);
    NoLoneBang(k);
    assert z[0] == w[0] && (|w| == 2 ==> z[1] == w[1]);
    LexIsOperator(z, kw);
    OneOrTwo(z[0], At(z, 1));
    if |w| == 2 {
      EntryOfTwo(k);
    } else {
      Prefix1(z, w[0]);
      assert z[0] != '!';
      if Operator(z[0], At(z, 1)).1 == 1 { EntryOfOne(k, At(z, 1)); } else { TwoMatches(z); }
    }
  }

  lemma OneOrTwo(c: char, d: char)
    ensures Operator(c, d).1 == 1 || Operator(c, d).1 == 2
    ensures Operator(c, d).1 == 2 && c != '!' ==> d != NUL
  {}

  /** The exclamation mark alone is no operator. */
  lemma NoLoneBang(k: int)
    requires 0 <= k < |Table()|
    ensures Table()[k].0 != "!"
  {}

  /** The characters that begin white space, strings, bracketed names, variables,
      numbers or names. */
  predicate OtherStart(c: char) {
    || (IsSpace(c) && c != 11 as char) || c == '`' || c == '\'' || c == '"' || c == '['
    || c == '?' || c == '#' || c == '@' || c == ':' || IsDigit(c) || IdChar(c)
  }

  /** A text that begins with no operator, and with nothing else the scanner knows, is
      illegal: one character, or two for the exclamation mark. */
  lemma OthersAreIllegal(z: string, kw: string -> Tok)
    requires IsText(z) && z != "" && !OtherStart(z[0]) && forall k :: !Matches(z, k)
    ensures Lex(z, kw) == (Illegal, if z[0] == '!' then 2 else 1)
  {
    NoEntry(z);
    NotOperator(z[0], At(z, 1));
  }

  lemma NoEntry(z: string)
    requires z != "" && forall k :: !Matches(z, k)
    ensures !OperatorChar(z[0]) || (z[0] == '!' && At(z, 1) != '=')
  {
    if OperatorChar(z[0]) {
      if z[0] != '!' { CharMatches(z); }
      assert Table()[17].0 == "!=";
      Prefix2(z, '!', '=');
      assert !Matches(z, 17);
    }
  }

  lemma CharMatches(z: string)
    requires z != "" && OperatorChar(z[0]) && z[0] != '!'
    ensures exists k :: Matches(z, k)
  {
    OneIsEntry(z[0]);
    var k :| 0 <= k < |Table()| && Table()[k].0 == [z[0]];
    Prefix1(z, z[0]);
    assert Matches(z, k);
  }

  lemma NotOperator(c: char, d: char)
    requires !OperatorChar(c) || (c == '!' && d != '=')
    ensures Operator(c, d) == (Illegal, if c == '!' then 2 else 1)
  {}

  lemma OneIsEntry(c: char)
    requires OperatorChar(c) && c != '!'
    ensures exists k :: 0 <= k < |Table()| && Table()[k].0 == [c]
  {
    assert Table()[0].0 == "-";
    assert Table()[1].0 == "(";
    assert Table()[2].0 == ")";
    assert Table()[3].0 == ";";
    assert Table()[4].0 == "+";
    assert Table()[5].0 == "*";
    assert Table()[6].0 == "/";
    assert Table()[7].0 == "%";
    assert Table()[8].0 == "=";
    assert Table()[10].0 == "<";
    assert Table()[14].0 == ">";
    assert Table()[18].0 == "|";
    assert Table()[20].0 == ",";
    assert Table()[21].0 == "&";
    assert Table()[22].0 == "~";
    assert Table()[23].0 == ".";
  }

  // ----- stretches of one class of characters

  /** From `i` to `j` the characters are of the class, and at `j` they stop being so. */
  ghost predicate Stretch(z: string, i: nat, j: nat, p: char -> bool) {
    i <= j <= |z| && (forall k :: i <= k < j ==> p(z[k])) && (j < |z| ==> !p(z[j]))
  }

  lemma {:induction false} SkipIs(z: string, i: nat, p: char -> bool, j: nat)
    requires i <= |z| && Stretch(z, i, j, p)
    ensures Skip(z, i, p) == j
    decreases |z| - i
  {
    if i < j { SkipIs(z, i + 1, p, j); }
  }

  /** White space, names, brackets and comments to the end of the line run as far as
      they can. */
  lemma SpaceIsAStretch(z: string, j: nat, kw: string -> Tok)
    requires z != "" && IsSpace(z[0]) && z[0] != 11 as char && Stretch(z, 1, j, IsSpace)
    ensures Lex(z, kw) == (Space, j)
  {
    SkipIs(z, 1, IsSpace, j);
  }

  lemma NameIsAStretch(z: string, j: nat, kw: string -> Tok)
    requires z != "" && IdChar(z[0]) && !IsDigit(z[0]) && z[0] != '$' && Stretch(z, 0, j, IdChar)
    requires |z| > 1 && (z[0] == 'x' || z[0] == 'X') ==> z[1] != '\'' && z[1] != '"'
    ensures Lex(z, kw) == (kw(z[..j]), j)
  {
    SkipIs(z, 1, IdChar, j);
  }

  lemma BracketIsAStretch(z: string, j: nat, kw: string -> Tok)
    requires z != "" && z[0] == '[' && Stretch(z, 1, j, NotBracket)
    ensures Lex(z, kw) == (Id, if j < |z| then j + 1 else j)
  {
    SkipIs(z, 1, NotBracket, j);
  }

  lemma LineCommentIsAStretch(z: string, j: nat, kw: string -> Tok)
    requires "--" <= z && Stretch(z, 2, j, NotNewline)
    ensures Lex(z, kw) == (Comment, j)
  {
    SkipIs(z, 2, NotNewline, j);
  }

  /** A block comment ends after the first `*` `/` past its opening mark, else with the text. */
  lemma BlockCommentEndsFirst(z: string, kw: string -> Tok)
    requires "/*" <= z && |z| > 2
    ensures var (t, n) := Lex(z, kw);
            && t == Comment && 3 <= n <= |z|
            && (forall k :: 3 <= k < n - 1 ==> !Closes(z, k))
            && (n == |z| || (n > 3 && Closes(z, n - 1)))
  {
    BlockEndIsFirst(z, 3);
    FirstCloses(z);
  }

  lemma FirstCloses(z: string)
    requires |z| > 2
    ensures BlockEnd(z, 3) == 3 ==> |z| == 3
  {}

  // ----- numbers

  ghost predicate Digits(z: string, i: nat, j: nat) {
    i <= j <= |z| && forall k :: i <= k < j ==> IsDigit(z[k])
  }

  /** A complete exponent: the letter, an optional sign and at least one digit. */
  ghost predicate Exponent(z: string, i: nat, j: nat) {
    && i + 1 < j <= |z| && (z[i] == 'e' || z[i] == 'E')
    && (Digits(z, i + 1, j) || ((z[i + 1] == '+' || z[i + 1] == '-') && i + 2 < j && Digits(z, i + 2, j)))
  }

  ghost predicate Fraction(z: string, i: nat, j: nat) {
    i < j <= |z| && z[i] == '.' && Digits(z, i + 1, j)
  }

  /** The first `n` characters are digits up to `a`, an optional fraction up to `b`, and an
      optional exponent. */
  ghost predicate NumberParts(z: string, a: nat, b: nat, n: nat) {
    Digits(z, 0, a) && (a == b || Fraction(z, a, b)) && (b == n || Exponent(z, b, n))
  }

  ghost predicate IsNumber(z: string, n: nat) {
    exists a: nat, b: nat :: NumberParts(z, a, b, n)
  }

  /** A number is cut off at the longest prefix that is one; it is an integer if and only
      if it is digits alone. */
  lemma NumbersByLongestMatch(z: string, kw: string -> Tok)
    requires BeginsNumber(z)
    ensures var (t, n) := Lex(z, kw);
            && IsNumber(z, n) && (forall m: nat :: IsNumber(z, m) ==> m <= n)
            && t == if Digits(z, 0, n) then Integer else Float
  {
    var (i, j) := NumberPlaces(z);
    PlacesStretch(z);
    var n := Number(z).1;
    assert NumberParts(z, i, j, n);
    forall m: nat | IsNumber(z, m) ensures m <= n {
      var a: nat, b: nat :| NumberParts(z, a, b, m);
      NoLonger(z, i, j, n, a, b, m);
    }
  }

  /** Where the digits before and after the point end. */
  ghost function NumberPlaces(z: string): (nat, nat) {
    var i := Skip(z, 0, IsDigit);
    (i, if i < |z| && z[i] == '.' then Skip(z, i + 1, IsDigit) else i)
  }

  ghost predicate AsLongAsCan(z: string, i: nat, j: nat, n: nat) {
    && Stretch(z, 0, i, IsDigit)
    && (if i < |z| && z[i] == '.' then i < j && Stretch(z, i + 1, j, IsDigit) else j == i)
    && j <= |z| && (if HasExponent(z, j) then j + 2 <= n && Stretch(z, j + 2, n, IsDigit) else n == j)
  }

  lemma PlacesStretch(z: string)
    ensures var (i, j) := NumberPlaces(z);
            AsLongAsCan(z, i, j, Number(z).1) && NumberParts(z, i, j, Number(z).1)
  {
    var (i, j) := NumberPlaces(z);
    SkipIsLongest(z, 0, IsDigit);
    if j > i { SkipIsLongest(z, i + 1, IsDigit); }
    if HasExponent(z, j) { SkipIsLongest(z, j + 2, IsDigit); }
  }

  /** No number is longer than one whose parts are as long as they can be. */
  lemma NoLonger(z: string, i: nat, j: nat, n: nat, a: nat, b: nat, m: nat)
    requires AsLongAsCan(z, i, j, n) && NumberParts(z, a, b, m)
    ensures m <= n
  {
    assert a <= i;
    if a == i && a < b {
      assert b <= j;
    }
    if b == j && b < m {
      assert HasExponent(z, j);
    }
  }

  // ----- variables

  /** Name characters and double colons fill the text from `i` to `j`. */
  ghost predicate Units(z: string, i: nat, j: nat)
    decreases j - i
  {
    && i <= j <= |z|
    && (i < j ==> (IdChar(z[i]) && Units(z, i + 1, j))
                  || (i + 1 < j && z[i] == ':' && z[i + 1] == ':' && Units(z, i + 2, j)))
  }

  /** No further name character or double colon at `j`. */
  ghost predicate UnitsStop(z: string, j: nat) {
    j < |z| ==> !IdChar(z[j]) && !(z[j] == ':' && j + 1 < |z| && z[j + 1] == ':')
  }

  ghost predicate HasName(z: string, i: nat, j: nat) {
    exists k :: i <= k < j <= |z| && IdChar(z[k])
  }

  /** The marks that begin a variable, and how many characters the mark has. */
  ghost predicate Mark(z: string, n: nat) {
    && z != "" && n <= |z|
    && if "@@" <= z then n == 2 else n == 1 && (z[0] == '@' || z[0] == '$' || z[0] == ':' || (z[0] == '#' && !(|z| > 1 && IsDigit(z[1]))))
  }

  lemma {:induction false} NameEndsAtUnits(z: string, i: nat, named: bool, j: nat)
    requires i <= |z| && IsText(z) && Units(z, i, j) && UnitsStop(z, j)
    ensures NameEnd(z, i, named) == NameEnd(z, j, named || HasName(z, i, j))
    decreases |z| - i
  {
    if i < j {
      if IdChar(z[i]) {
        NameEndsAtUnits(z, i + 1, true, j);
      } else {
        NameEndsAtUnits(z, i + 2, named, j);
        assert !IdChar(':');
        assert HasName(z, i, j) == HasName(z, i + 2, j);
      }
    }
  }

  /** A variable is its mark, then name characters and double colons as far as they go; it
      needs a name character. */
  lemma VariableWithoutSuffix(z: string, i: nat, j: nat, kw: string -> Tok)
    requires IsText(z) && Mark(z, i) && Units(z, i, j) && UnitsStop(z, j)
    requires HasName(z, i, j) ==> j == |z| || z[j] != '('
    ensures Lex(z, kw) == (if !HasName(z, i, j) then Illegal else if i == 2 then Variable1 else Variable, j)
  {
    MarkLex(z, i, kw);
    NameEndsAtUnits(z, i, false, j);
  }

  /** After the name one suffix in parentheses, free of white space, belongs to it; without
      its closing parenthesis the token is illegal. */
  lemma VariableWithSuffix(z: string, i: nat, j: nat, e: nat, kw: string -> Tok)
    requires IsText(z) && Mark(z, i) && Units(z, i, j) && HasName(z, i, j)
    requires j < |z| && z[j] == '(' && Stretch(z, j + 1, e, InSuffix)
    ensures Lex(z, kw) == if e < |z| && z[e] == ')' then (if i == 2 then Variable1 else Variable, e + 1) else (Illegal, e)
  {
    MarkLex(z, i, kw);
    NameEndsAtUnits(z, i, false, j);
    SkipIs(z, j + 1, InSuffix, e);
  }

  lemma MarkLex(z: string, i: nat, kw: string -> Tok)
    requires Mark(z, i)
    ensures Lex(z, kw) == VariableToken(z) && i == if z[0] == '@' && At(z, 1) == '@' then 2 else 1
    ensures VariableToken(z) == (var (end, named, broken) := NameEnd(z, i, false); (if !named || broken then Illegal else if i == 2 then Variable1 else Variable, end))
  {
    Prefix2(z, '@', '@');
  }

  /** A question mark or a hash mark takes the digits after it. */
  lemma NumberedVariable(z: string, j: nat, kw: string -> Tok)
    requires z != "" && Stretch(z, 1, j, IsDigit) && (z[0] == '?' || (z[0] == '#' && j > 1))
    ensures Lex(z, kw) == (if z[0] == '?' then Variable else Register, j)
  {
    SkipIs(z, 1, IsDigit, j);
  }

  // ----- blobs and strings

  /** A blob is an even number of hexadecimal digits in quotes; it may end with the text,
      an odd number or another character makes it illegal, and the token then ends after
      the quote or before that character. */
  lemma BlobIsAStretch(z: string, j: nat, kw: string -> Tok)
    requires |z| > 1 && (z[0] == 'x' || z[0] == 'X') && (z[1] == '\'' || z[1] == '"') && Stretch(z, 2, j, IsHex)
    ensures j == |z| ==> Lex(z, kw) == (Blob, j)
    ensures j < |z| && z[j] == z[1] ==> Lex(z, kw) == (if (j - 2) % 2 == 0 then Blob else Illegal, j + 1)
    ensures j < |z| && z[j] != z[1] ==> Lex(z, kw) == (Illegal, j)
  {
    SkipIs(z, 2, IsHex, j);
  }

  /** Other characters and doubled delimiters fill the text from `i` to `j`. */
  ghost predicate Inside(z: string, i: nat, j: nat, delim: char)
    decreases j - i
  {
    && i <= j <= |z|
    && (i < j ==> if z[i] != delim then Inside(z, i + 1, j, delim) else i + 1 < j && z[i + 1] == delim && Inside(z, i + 2, j, delim))
  }

  lemma {:induction false} QuoteEndsAfter(z: string, i: nat, j: nat, delim: char)
    requires i <= |z| && Inside(z, i, j, delim)
    ensures QuoteEnd(z, i, delim) == QuoteEnd(z, j, delim)
    decreases |z| - i
  {
    if i < j {
      QuoteEndsAfter(z, if z[i] != delim then i + 1 else i + 2, j, delim);
    }
  }

  /** A string ends at its first delimiter that is not doubled; without one it is illegal
      and takes the rest of the text. */
  lemma StringEndsAtDelimiter(z: string, j: nat, kw: string -> Tok)
    requires z != "" && (z[0] == '\'' || z[0] == '"' || z[0] == '`') && Inside(z, 1, j, z[0])
    ensures j == |z| ==> Lex(z, kw) == (Illegal, j)
    ensures j < |z| && z[j] == z[0] && (j + 1 == |z| || z[j + 1] != z[0]) ==> Lex(z, kw) == (String, j + 1)
  {
    QuoteEndsAfter(z, 1, j, z[0]);
  }
}
