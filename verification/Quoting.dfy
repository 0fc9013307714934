/** Printing strings and identifiers so that the scanner reads them back
    (`printf.c`, `build.c`, `util.c`).
 */
module Quoting {
  import opened Tokenizer

  /** Every `q` written twice. */
  function Doubled(s: string, q: char): string {
    if s == "" then "" else (if s[0] == q then [q, q] else [s[0]]) + Doubled(s[1..], q)
  }

  function Count(s: string, q: char): nat {
    if s == "" then 0 else (if s[0] == q then 1 else 0) + Count(s[1..], q)
  }

  lemma {:induction false} DoubledSnoc(s: string, c: char, q: char)
    ensures Doubled(s + [c], q) == Doubled(s, q) + if c == q then [q, q] else [c]
  {
    if s == "" {
      assert s + [c] == [c];
    } else {
      assert (s + [c])[1..] == s[1..] + [c];
      DoubledSnoc(s[1..], c, q);
    }
  }

  lemma {:induction false} CountSnoc(s: string, c: char, q: char)
    ensures Count(s + [c], q) == Count(s, q) + if c == q then 1 else 0
  {
    if s == "" {
      assert s + [c] == [c];
    } else {
      assert (s + [c])[1..] == s[1..] + [c];
      CountSnoc(s[1..], c, q);
    }
  }

  lemma {:induction false} DoubledLength(s: string, q: char)
    ensures |Doubled(s, q)| == |s| + Count(s, q)
  {
    if s != "" { DoubledLength(s[1..], q); }
  }

  // ----- %q and %Q

  datatype Arg = Null | Str(text: string)

  /** `etSQLESCAPE2` is `%Q`, the other is `%q`. */
  datatype Conversion = Escape | Escape2

  function ArgText(arg: Arg, x: Conversion): string {
    if arg.Str? then arg.text else if x.Escape2? then "NULL" else "(NULL)"
  }

  function Quoted(s: string, q: char): string {
    [q] + Doubled(s, q) + [q]
  }

  function Escaped(arg: Arg, x: Conversion): string {
    if arg.Str? && x.Escape2? then Quoted(arg.text, '\'') else Doubled(ArgText(arg, x), '\'')
  }

  /** The size that is set aside before anything is written, with the terminator. */
  method EscapeSize(text: string, needQuote: bool) returns (n: nat)
    requires IsText(text)
    ensures n == |Doubled(text, '\'')| + 1 + if needQuote then 2 else 0
  {
    var i := 0;
    n := 0;
    while At(text, i) != NUL
      decreases |text| - i
      invariant 0 <= i <= |text| && n == Count(text[..i], '\'')
    {
      CountSnoc(text[..i], text[i], '\'');
      assert text[..i + 1] == text[..i] + [text[i]];
      if text[i] == '\'' {
        n := n + 1;
      }
      i := i + 1;
    }
    assert text[..|text|] == text;
    DoubledLength(text, '\'');
    n := n + i + 1 + if needQuote then 2 else 0;
  }

  /** Copies `text` into the buffer from `at` on, doubling every `q`. */
  method CopyDoubled(buf: array<char>, at: nat, text: string, q: char) returns (j: nat)
    requires IsText(text) && at + |Doubled(text, q)| <= buf.Length
    modifies buf
    ensures j == at + |Doubled(text, q)| && buf[at..j] == Doubled(text, q)
    ensures buf[..at] == old(buf[..at]) && buf[j..] == old(buf[j..])
  {
    j := at;
    var i := 0;
    ghost var end := at + |Doubled(text, q)|;
    while At(text, i) != NUL
      decreases |text| - i
      invariant 0 <= i <= |text| && j == at + |Doubled(text[..i], q)|
      invariant j + |Doubled(text[i..], q)| == end
      invariant buf[at..j] == Doubled(text[..i], q)
      invariant buf[..at] == old(buf[..at]) && buf[end..] == old(buf[end..])
    {
      DoubledSnoc(text[..i], text[i], q);
      assert text[..i + 1] == text[..i] + [text[i]] && text[i..][1..] == text[i + 1..];
      buf[j] := text[i];
      j := j + 1;
      if text[i] == q {
        buf[j] := text[i];
        j := j + 1;
      }
      i := i + 1;
    }
    assert text[..|text|] == text;
  }

  /** Writes the text, in quotes if they are needed, and the terminator. */
  method WriteQuoted(buf: array<char>, at: nat, text: string, q: char, needQuote: bool) returns (j: nat)
    requires IsText(text) && at + |Doubled(text, q)| + (if needQuote then 3 else 1) <= buf.Length
    modifies buf
    ensures var out := if needQuote then Quoted(text, q) else Doubled(text, q);
            j == at + |out| && j < buf.Length && buf[at..j] == out && buf[j] == NUL
    ensures buf[..at] == old(buf[..at]) && buf[j + 1..] == old(buf[j + 1..])
  {
    j := at;
    if needQuote {
      buf[j] := q;
      j := j + 1;
    }
    ghost var from := j;
    j := CopyDoubled(buf, j, text, q);
    ghost var d := Doubled(text, q);
    assert buf[..from] == old(buf[..at]) + if needQuote then [q] else [];
    assert buf[from..j] == d;
    if needQuote {
      buf[j] := q;
      j := j + 1;
    }
    buf[j] := NUL;
    assert buf[..from] == old(buf[..at]) + if needQuote then [q] else [];
    assert buf[from..from + |d|] == d;
  }

  /** The conversion fills the buffer exactly: its text, then the terminator. */
  method SqlEscape(arg: Arg, x: Conversion) returns (buf: array<char>, length: nat)
    requires arg.Str? ==> IsText(arg.text)
    ensures fresh(buf) && length + 1 == buf.Length
    ensures buf[..length] == Escaped(arg, x) && buf[length] == NUL
  {
    var text, needQuote := ArgText(arg, x), arg.Str? && x.Escape2?;
    var n := EscapeSize(text, needQuote);
    buf := new char[n];
    length := WriteQuoted(buf, 0, text, '\'', needQuote);
  }

  // ----- identifiers

  predicate Plain(c: char) {
    IsAlnum(c) || c == '_'
  }

  predicate NeedsQuote(ident: string, kw: string -> Tok) {
    || (exists i :: 0 <= i < |ident| && !Plain(ident[i]))
    || (ident != "" && IsDigit(ident[0]))
    || kw(ident) != Id
  }

  function IdentText(ident: string, kw: string -> Tok): string {
    if NeedsQuote(ident, kw) then Quoted(ident, '"') else Doubled(ident, '"')
  }

  method IdentLength(ident: string) returns (n: nat)
    ensures n == |Doubled(ident, '"')| + 2
  {
    n := 0;
    for i := 0 to |ident|
      invariant n == |Doubled(ident[..i], '"')|
    {
      DoubledSnoc(ident[..i], ident[i], '"');
      assert ident[..i + 1] == ident[..i] + [ident[i]];
      if ident[i] == '"' {
        n := n + 1;
      }
      n := n + 1;
    }
    assert ident[..|ident|] == ident;
    n := n + 2;
  }

  method NeedQuote(ident: string, kw: string -> Tok) returns (needQuote: bool)
    requires IsText(ident)
    ensures needQuote == NeedsQuote(ident, kw)
  {
    var j := 0;
    while At(ident, j) != NUL
      invariant 0 <= j <= |ident| && forall k :: 0 <= k < j ==> Plain(ident[k])
      decreases |ident| - j
    {
      if !Plain(ident[j]) {
        break;
      }
      j := j + 1;
    }
    assert ident[..|ident|] == ident;
    needQuote := At(ident, j) != NUL || IsDigit(At(ident, 0)) || kw(ident[..j]) != Id;
  }

  /** Writes the identifier and a terminator within the space that `IdentLength` and the
      terminator take, and touches nothing else. */
  method IdentPut(z: array<char>, idx: nat, ident: string, kw: string -> Tok) returns (end: nat)
    requires IsText(ident) && idx + |Doubled(ident, '"')| + 3 <= z.Length
    modifies z
    ensures end == idx + |IdentText(ident, kw)| <= idx + |Doubled(ident, '"')| + 2
    ensures z[idx..end] == IdentText(ident, kw) && z[end] == NUL
    ensures z[..idx] == old(z[..idx]) && z[end + 1..] == old(z[end + 1..])
  {
    var needQuote := NeedQuote(ident, kw);
    end := WriteQuoted(z, idx, ident, '"', needQuote);
  }

  // ----- reading back

  ghost predicate Begins(rest: string, c: char) {
    rest != "" && rest[0] == c
  }

  /** The closing delimiter is found behind a doubled text, if no further one follows. */
  lemma {:induction false} QuoteEndsBehind(z: string, i: nat, s: string, q: char, rest: string)
    requires i <= |z| && z[i..] == Doubled(s, q) + [q] + rest && !Begins(rest, q)
    ensures QuoteEnd(z, i, q) == (true, i + |Doubled(s, q)| + 1)
    decreases |s|
  {
    if s == "" {
      assert z[i] == z[i..][0] == q;
      assert i + 1 < |z| ==> z[i + 1] == z[i..][1] == rest[0];
    } else {
      var head := if s[0] == q then [q, q] else [s[0]];
      var tail := Doubled(s[1..], q) + [q] + rest;
      assert z[i..] == head + tail;
      assert z[i] == z[i..][0] && z[i..][|head|..] == tail;
      assert z[i + |head|..] == tail;
      if s[0] == q {
        assert z[i + 1] == z[i..][1] == q;
      }
      QuoteEndsBehind(z, i + |head|, s[1..], q, rest);
    }
  }

  /** A quoted text is one token if and only if no further quote follows it. */
  lemma QuotedIsOneToken(s: string, q: char, rest: string, kw: string -> Tok)
    requires q == '\'' || q == '"'
    ensures Lex(Quoted(s, q) + rest, kw) == (String, |Quoted(s, q)|) <==> !Begins(rest, q)
  {
    var z := Quoted(s, q) + rest;
    assert z[0] == q && z[1..] == Doubled(s, q) + [q] + rest;
    if !Begins(rest, q) {
      QuoteEndsBehind(z, 1, s, q, rest);
    } else {
      QuoteGoesOn(z, 1, s, q, rest);
    }
  }

  lemma {:induction false} QuoteGoesOn(z: string, i: nat, s: string, q: char, rest: string)
    requires i <= |z| && z[i..] == Doubled(s, q) + [q] + rest && Begins(rest, q)
    ensures QuoteEnd(z, i, q).1 > i + |Doubled(s, q)| + 1
    decreases |s|
  {
    if s == "" {
      assert z[i] == z[i..][0] == q && z[i + 1] == z[i..][1] == q;
    } else {
      var head := if s[0] == q then [q, q] else [s[0]];
      var tail := Doubled(s[1..], q) + [q] + rest;
      assert z[i..] == head + tail;
      assert z[i] == z[i..][0] && z[i..][|head|..] == tail;
      assert z[i + |head|..] == tail;
      if s[0] == q {
        assert z[i + 1] == z[i..][1] == q;
      }
      QuoteGoesOn(z, i + |head|, s[1..], q, rest);
    }
  }

  // ----- taking the quotes off

  /** What `sqlite3Dequote` collects from `i` on, and whether it comes to the closing quote. */
  function Undoubled(z: string, i: nat, q: char): (string, bool)
    requires i <= |z|
    decreases |z| - i
  {
    if i == |z| then ("", false)
    else if z[i] != q then var r := Undoubled(z, i + 1, q); ([z[i]] + r.0, r.1)
    else if i + 1 < |z| && z[i + 1] == q then var r := Undoubled(z, i + 2, q); ([q] + r.0, r.1)
    else ("", true)
  }

  predicate IsQuote(c: char) {
    c == '\'' || c == '"' || c == '`' || c == '['
  }

  function ClosingQuote(c: char): char {
    if c == '[' then ']' else c
  }

  /** Without a closing quote the old text shows through behind what was collected. */
  function Dequoted(z: string): string {
    if z == "" || !IsQuote(z[0]) then z
    else
      var q := ClosingQuote(z[0]);
      var (u, closed) := Undoubled(z, 1, q);
      UndoubledFits(z, 1, q);
      if closed then u else u + z[|u|..]
  }

  /** The text up to the first terminator. */
  ghost predicate Holds(a: array<char>, z: string)
    reads a
  {
    |z| < a.Length && a[..|z|] == z && a[|z|] == NUL
  }

  lemma {:induction false} UndoubledFits(z: string, i: nat, q: char)
    requires i <= |z|
    ensures |Undoubled(z, i, q).0| <= |z| - i
    decreases |z| - i
  {
    if i < |z| {
      if z[i] != q {
        UndoubledFits(z, i + 1, q);
      } else if i + 1 < |z| && z[i + 1] == q {
        UndoubledFits(z, i + 2, q);
      }
    }
  }

  /** `sqlite3Dequote`, in place on an array that holds the text `z`. */
  method Dequote(a: array<char>, ghost z: string)
    requires IsText(z) && Holds(a, z)
    modifies a
    ensures Holds(a, Dequoted(z))
  {
    var quote := a[0];
    if !IsQuote(quote) {
      return;
    }
    if quote == '[' {
      quote := ']';
    }
    ghost var all := Undoubled(z, 1, quote);
    UndoubledFits(z, 1, quote);
    var i, j := 1, 0;
    while a[i] != NUL
      invariant 1 <= i <= |z| < a.Length && 0 <= j < i
      invariant forall k :: j <= k < |z| ==> a[k] == z[k]
      invariant a[|z|] == NUL && j <= |all.0| && Undoubled(z, i, quote) == (all.0[j..], all.1)
      invariant forall k :: 0 <= k < j ==> a[k] == all.0[k]
      decreases |z| - i
    {
      ghost var u := all.0[j..];
      if a[i] == quote {
        if a[i + 1] == quote {
          a[j] := quote;
          j := j + 1;
          i := i + 1;
        } else {
          a[j] := NUL;
          assert j == |all.0| && a[..j] == all.0;
          return;
        }
      } else {
        a[j] := a[i];
        j := j + 1;
      }
      i := i + 1;
      assert u == [a[j - 1]] + Undoubled(z, i, quote).0;
      assert all.0[j - 1] == u[0] && all.0[j..] == u[1..];
    }
    assert j == |all.0| && a[..|z|] == all.0 + z[j..];
  }

  lemma {:induction false} UndoubledBehind(z: string, i: nat, s: string, q: char)
    requires i <= |z| && z[i..] == Doubled(s, q) + [q]
    ensures Undoubled(z, i, q) == (s, true)
    decreases |s|
  {
    if s == "" {
      assert z[i] == z[i..][0] == q;
    } else {
      var head := if s[0] == q then [q, q] else [s[0]];
      var tail := Doubled(s[1..], q) + [q];
      assert z[i..] == head + tail;
      assert z[i] == z[i..][0] && z[i..][|head|..] == tail;
      assert z[i + |head|..] == tail;
      if s[0] == q {
        assert z[i + 1] == z[i..][1] == q;
      }
      UndoubledBehind(z, i + |head|, s[1..], q);
      assert s == [s[0]] + s[1..];
    }
  }

  lemma QuotedReadsBack(s: string, q: char)
    requires q == '\'' || q == '"'
    ensures Dequoted(Quoted(s, q)) == s
  {
    var z := Quoted(s, q);
    assert z[0] == q && z[1..] == Doubled(s, q) + [q];
    UndoubledBehind(z, 1, s, q);
  }

  /** `%Q` of a string is exactly one string token, whatever follows that is not a
      quote, and taking the quotes off gives the string back. */
  lemma EscapeRoundTrip(s: string, rest: string, kw: string -> Tok)
    ensures Lex(Escaped(Str(s), Escape2) + rest, kw) == (String, |Escaped(Str(s), Escape2)|) <==> !Begins(rest, '\'')
    ensures Dequoted(Escaped(Str(s), Escape2)) == s
  {
    QuotedIsOneToken(s, '\'', rest, kw);
    QuotedReadsBack(s, '\'');
  }

  lemma {:induction false} PlainIsItself(s: string, q: char)
    requires q !in s
    ensures Doubled(s, q) == s
  {
    if s != "" { PlainIsItself(s[1..], q); }
  }

  lemma {:induction false} SkipsPlain(z: string, i: nat, n: nat)
    requires i <= n <= |z| && (forall k :: i <= k < n ==> Plain(z[k])) && (n < |z| ==> !IdChar(z[n]))
    ensures Skip(z, i, IdChar) == n
    decreases n - i
  {
    if i < n { SkipsPlain(z, i + 1, n); }
  }

  /** An identifier that needs no quotes is one identifier token, unless what follows
      continues it or makes it the prefix of a blob. */
  lemma PlainIsOneToken(ident: string, rest: string, kw: string -> Tok)
    requires ident != "" && !NeedsQuote(ident, kw)
    requires rest != "" ==> !IdChar(rest[0]) && rest[0] != '\'' && rest[0] != '"'
    ensures Lex(ident + rest, kw) == (Id, |ident|)
  {
    var z, n := ident + rest, |ident|;
    assert forall k :: 0 <= k < n ==> z[k] == ident[k];
    assert n < |z| ==> z[n] == rest[0];
    SkipsPlain(z, 1, n);
    assert z[..n] == ident;
  }

  /** `identPut` of an identifier is exactly one token, an identifier if it is written
      without quotes and a string otherwise, and taking quotes off gives it back. */
  lemma IdentRoundTrip(ident: string, kw: string -> Tok)
    requires ident != ""
    ensures var out := IdentText(ident, kw);
            && Lex(out, kw) == (if NeedsQuote(ident, kw) then String else Id, |out|)
            && Dequoted(out) == ident
  {
    var out := IdentText(ident, kw);
    assert out + "" == out;
    if NeedsQuote(ident, kw) {
      QuotedIsOneToken(ident, '"', "", kw);
      QuotedReadsBack(ident, '"');
    } else {
      assert '"' !in ident;
      PlainIsItself(ident, '"');
      PlainIsOneToken(ident, "", kw);
    }
  }

  // ----- what taking the quotes off promises

  lemma {:induction false} ClosedForBoth(z: string, i: nat, q: char)
    requires i <= |z|
    ensures Undoubled(z, i, q).1 <==> QuoteEnd(z, i, q).0
    decreases |z| - i
  {
    if i < |z| {
      if z[i] != q {
        ClosedForBoth(z, i + 1, q);
      } else if i + 1 < |z| && z[i + 1] == q {
        ClosedForBoth(z, i + 2, q);
      }
    }
  }

  /** The result of `sqlite3Dequote` is what stands between the quotes if and only if the
      closing quote is there; otherwise more of the old text follows it. */
  lemma DequoteRightIffClosed(z: string)
    requires z != "" && IsQuote(z[0])
    ensures var q := ClosingQuote(z[0]);
            && (Dequoted(z) == Undoubled(z, 1, q).0 <==> QuoteEnd(z, 1, q).0)
            && Undoubled(z, 1, q).0 <= Dequoted(z)
  {
    var q := ClosingQuote(z[0]);
    ClosedForBoth(z, 1, q);
    UndoubledFits(z, 1, q);
  }

  /** So for a text that begins with one of the scanner's quotes the result is right if and
      only if the scanner takes its beginning for a string. */
  lemma DequoteRightIffString(z: string, kw: string -> Tok)
    requires z != "" && (z[0] == '\'' || z[0] == '"' || z[0] == '`')
    ensures Dequoted(z) == Undoubled(z, 1, z[0]).0 <==> Lex(z, kw).0 == String
  {
    DequoteRightIffClosed(z);
  }

  /** Without the closing quote a letter is there twice. */
  lemma DequoteOpenText()
    ensures Dequoted("'ab") == "abb" && Undoubled("'ab", 1, '\'').0 == "ab"
  {
    var z := "'ab";
    assert ['b'] + "" == "b" && ['a'] + "b" == "ab" && "ab" + "b" == "abb";
    assert Undoubled(z, 3, '\'') == ("", false);
    assert Undoubled(z, 2, '\'') == ("b", false);
    assert Undoubled(z, 1, '\'') == ("ab", false);
    assert z[2..] == "b";
  }
}
