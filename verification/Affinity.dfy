/** The affinity of a column type name (`sqlite3AffinityType` in `build.c`). */
module Affinity {

  datatype Aff = Text | None | Numeric | Integer | Real

  /** A type name is a sequence of bytes. */
  type Bytes = seq<bv8>

  /** `sqlite3UpperToLower`. */
  function Lower(c: bv8): bv8 {
    if 0x41 <= c <= 0x5a then c + 0x20 else c
  }

  const CHAR_WORD: Bytes := [0x63, 0x68, 0x61, 0x72]
  const CLOB_WORD: Bytes := [0x63, 0x6c, 0x6f, 0x62]
  const TEXT_WORD: Bytes := [0x74, 0x65, 0x78, 0x74]
  const BLOB_WORD: Bytes := [0x62, 0x6c, 0x6f, 0x62]
  const REAL_WORD: Bytes := [0x72, 0x65, 0x61, 0x6c]
  const FLOA_WORD: Bytes := [0x66, 0x6c, 0x6f, 0x61]
  const DOUB_WORD: Bytes := [0x64, 0x6f, 0x75, 0x62]
  const INT_WORD: Bytes := [0x69, 0x6e, 0x74]

  // ----- what the documentation of the routine says

  /** Upper or lower case, `s` has `word` at `i`. */
  ghost predicate MatchAt(s: Bytes, word: Bytes, i: int) {
    0 <= i && i + |word| <= |s| && forall k :: 0 <= k < |word| ==> Lower(s[i + k]) == word[k]
  }

  ghost predicate Contains(s: Bytes, word: Bytes) {
    exists i :: MatchAt(s, word, i)
  }

  ghost predicate HasText(s: Bytes) {
    Contains(s, CHAR_WORD) || Contains(s, CLOB_WORD) || Contains(s, TEXT_WORD)
  }

  ghost predicate HasReal(s: Bytes) {
    Contains(s, REAL_WORD) || Contains(s, FLOA_WORD) || Contains(s, DOUB_WORD)
  }

  ghost function Documented(s: Bytes): Aff {
    if Contains(s, INT_WORD) then Integer
    else if HasText(s) then Text
    else if Contains(s, BLOB_WORD) then None
    else if HasReal(s) then Real
    else Numeric
  }

  // ----- the hash of the last four bytes

  function Shifted(h: bv32, c: bv8): bv32 {
    (h << 8) + (Lower(c) as bv32)
  }

  function Pack(a: bv8, b: bv8, c: bv8, d: bv8): bv32 {
    ((a as bv32) << 24) + ((b as bv32) << 16) + ((c as bv32) << 8) + (d as bv32)
  }

  function Code(word: Bytes): bv32
    requires |word| == 4
  {
    Pack(word[0], word[1], word[2], word[3])
  }

  function Code3(word: Bytes): bv32
    requires |word| == 3
  {
    Pack(0, word[0], word[1], word[2])
  }

  function Hash(s: Bytes): bv32 {
    if s == [] then 0 else Shifted(Hash(s[..|s| - 1]), s[|s| - 1])
  }

  /** The byte `k` places before the end, 0 if there is none. */
  function Back(s: Bytes, k: nat): bv8 {
    if k < |s| then Lower(s[|s| - 1 - k]) else 0
  }

  lemma PackShift(a: bv8, b: bv8, c: bv8, d: bv8, e: bv8)
    ensures (Pack(a, b, c, d) << 8) + (e as bv32) == Pack(b, c, d, e)
  {}

  lemma PackInjective(a: bv8, b: bv8, c: bv8, d: bv8, a': bv8, b': bv8, c': bv8, d': bv8)
    ensures Pack(a, b, c, d) == Pack(a', b', c', d') <==> a == a' && b == b' && c == c' && d == d'
  {}

  lemma LowBytes(a: bv8, b: bv8, c: bv8, d: bv8)
    ensures Pack(a, b, c, d) & 0x00ff_ffff == Pack(0, b, c, d)
  {}

  lemma BacksShift(s: Bytes)
    requires s != []
    ensures var t := s[..|s| - 1];
            && Back(s, 0) == Lower(s[|s| - 1]) && Back(s, 1) == Back(t, 0)
            && Back(s, 2) == Back(t, 1) && Back(s, 3) == Back(t, 2)
  {}

  /** The hash is made of the last four bytes: everything before has been shifted out. */
  lemma {:induction false} HashIsLastFour(s: Bytes)
    ensures Hash(s) == Pack(Back(s, 3), Back(s, 2), Back(s, 1), Back(s, 0))
  {
    if s != [] {
      var t := s[..|s| - 1];
      HashIsLastFour(t);
      BacksShift(s);
      PackShift(Back(t, 3), Back(t, 2), Back(t, 1), Back(t, 0), Back(s, 0));
    }
  }

  lemma EndsInWord(s: Bytes, word: Bytes)
    requires |word| == 4 && word[0] != 0
    ensures MatchAt(s, word, |s| - 4) <==>
            Back(s, 3) == word[0] && Back(s, 2) == word[1] && Back(s, 1) == word[2] && Back(s, 0) == word[3]
  {
    if |s| >= 4 {
      var i := |s| - 4;
      assert s[i + 0] == s[|s| - 1 - 3] && s[i + 1] == s[|s| - 1 - 2] && s[i + 2] == s[|s| - 1 - 1] && s[i + 3] == s[|s| - 1 - 0];
    }
  }

  lemma EndsInWord3(s: Bytes, word: Bytes)
    requires |word| == 3 && word[0] != 0
    ensures MatchAt(s, word, |s| - 3) <==> Back(s, 2) == word[0] && Back(s, 1) == word[1] && Back(s, 0) == word[2]
  {
    if |s| >= 3 {
      var i := |s| - 3;
      assert s[i + 0] == s[|s| - 1 - 2] && s[i + 1] == s[|s| - 1 - 1] && s[i + 2] == s[|s| - 1 - 0];
    }
  }

  /** The hash equals the code of a word exactly when the text ends in the word. */
  lemma HashFindsWord(s: Bytes, word: Bytes)
    requires |word| == 4 && word[0] != 0
    ensures Hash(s) == Code(word) <==> MatchAt(s, word, |s| - 4)
  {
    HashIsLastFour(s);
    PackInjective(Back(s, 3), Back(s, 2), Back(s, 1), Back(s, 0), word[0], word[1], word[2], word[3]);
    EndsInWord(s, word);
  }

  lemma HashFindsWord3(s: Bytes, word: Bytes)
    requires |word| == 3 && word[0] != 0
    ensures Hash(s) & 0x00ff_ffff == Code3(word) <==> MatchAt(s, word, |s| - 3)
  {
    HashIsLastFour(s);
    LowBytes(Back(s, 3), Back(s, 2), Back(s, 1), Back(s, 0));
    PackInjective(0, Back(s, 2), Back(s, 1), Back(s, 0), 0, word[0], word[1], word[2]);
    EndsInWord3(s, word);
  }

  lemma ContainsSnoc(s: Bytes, c: bv8, word: Bytes)
    requires word != []
    ensures Contains(s + [c], word) <==> Contains(s, word) || MatchAt(s + [c], word, |s| + 1 - |word|)
  {
    var t := s + [c];
    if Contains(t, word) {
      var i :| MatchAt(t, word, i);
      if i + |word| <= |s| { assert MatchAt(s, word, i); }
    }
    if Contains(s, word) {
      var i :| MatchAt(s, word, i);
      assert MatchAt(t, word, i);
    }
  }

  /** One byte more finds a word if and only if the hash shows it. */
  lemma WordStep(s: Bytes, c: bv8, word: Bytes)
    requires |word| == 4 && word[0] != 0
    ensures Contains(s + [c], word) <==> Contains(s, word) || Hash(s + [c]) == Code(word)
  {
    ContainsSnoc(s, c, word);
    HashFindsWord(s + [c], word);
  }

  predicate IsText(h: bv32) {
    h == Code(CHAR_WORD) || h == Code(CLOB_WORD) || h == Code(TEXT_WORD)
  }

  predicate IsReal(h: bv32) {
    h == Code(REAL_WORD) || h == Code(FLOA_WORD) || h == Code(DOUB_WORD)
  }

  predicate IsInt(h: bv32) {
    h & 0x00ff_ffff == Code3(INT_WORD)
  }

  lemma TextStep(s: Bytes, c: bv8)
    ensures HasText(s + [c]) <==> HasText(s) || IsText(Hash(s + [c]))
  {
    WordStep(s, c, CHAR_WORD);
    WordStep(s, c, CLOB_WORD);
    WordStep(s, c, TEXT_WORD);
  }

  lemma RealStep(s: Bytes, c: bv8)
    ensures HasReal(s + [c]) <==> HasReal(s) || IsReal(Hash(s + [c]))
  {
    WordStep(s, c, REAL_WORD);
    WordStep(s, c, FLOA_WORD);
    WordStep(s, c, DOUB_WORD);
  }

  lemma IntStep(s: Bytes, c: bv8)
    ensures Contains(s + [c], INT_WORD) <==> Contains(s, INT_WORD) || IsInt(Hash(s + [c]))
  {
    ContainsSnoc(s, c, INT_WORD);
    HashFindsWord3(s + [c], INT_WORD);
  }

  /** At most one of the words can end at a place. */
  lemma WordsApart(h: bv32)
    ensures IsText(h) ==> !IsReal(h) && h != Code(BLOB_WORD)
    ensures IsReal(h) ==> h != Code(BLOB_WORD)
    ensures IsText(h) || IsReal(h) || h == Code(BLOB_WORD) ==> !IsInt(h)
  {}

  function Next(given: Aff, h: bv32): Aff {
    if IsInt(h) then Integer
    else if IsText(h) then Text
    else if h == Code(BLOB_WORD) && (given == Numeric || given == Real) then None
    else if IsReal(h) && given == Numeric then Real
    else given
  }

  /** What the hash after one more byte does to the documented answer. */
  lemma AnswerStep(s: Bytes, c: bv8)
    requires !Contains(s, INT_WORD)
    ensures Documented(s + [c]) == Next(Documented(s), Hash(s + [c]))
  {
    IntStep(s, c);
    TextStep(s, c);
    WordStep(s, c, BLOB_WORD);
    RealStep(s, c);
    WordsApart(Hash(s + [c]));
  }

  // ----- the loop

  /** The answer of the loop for a prefix; once it is `Integer` it stays. */
  function Answer(s: Bytes): Aff {
    if s == [] then Numeric
    else
      var a := Answer(s[..|s| - 1]);
      if a == Integer then a else Next(a, Hash(s))
  }

  /** The comparisons of one turn of the loop. */
  method Compare(h: bv32, given: Aff) returns (aff: Aff)
    ensures aff == Next(given, h)
  {
    WordsApart(h);
    aff := given;
    if h == Code(CHAR_WORD) {
      aff := Text;
    } else if h == Code(CLOB_WORD) {
      aff := Text;
    } else if h == Code(TEXT_WORD) {
      aff := Text;
    } else if h == Code(BLOB_WORD) && (aff == Numeric || aff == Real) {
      aff := None;
    } else if h == Code(REAL_WORD) && aff == Numeric {
      aff := Real;
    } else if h == Code(FLOA_WORD) && aff == Numeric {
      aff := Real;
    } else if h == Code(DOUB_WORD) && aff == Numeric {
      aff := Real;
    } else if h & 0x00ff_ffff == Code3(INT_WORD) {
      aff := Integer;
    }
  }

  lemma {:induction false} IntegerStays(z: Bytes, i: nat, n: nat)
    requires i <= n <= |z| && Answer(z[..i]) == Integer
    ensures Answer(z[..n]) == Integer
  {
    if i < n {
      IntegerStays(z, i, n - 1);
      assert z[..n][..n - 1] == z[..n - 1];
    }
  }

  lemma PrefixStep(z: Bytes, i: nat)
    requires i < |z|
    ensures z[..i + 1][..i] == z[..i] && z[..i + 1] == z[..i] + [z[i]]
  {}

  /** The loop over the type name, which stops at the first `int`. */
  method Scan(z: Bytes) returns (aff: Aff)
    ensures aff == Answer(z[..|z|])
  {
    var h, i := 0 as bv32, 0;
    aff := Numeric;
    while i < |z|
      invariant 0 <= i <= |z| && h == Hash(z[..i]) && aff == Answer(z[..i]) && aff != Integer
    {
      PrefixStep(z, i);
      h := Shifted(h, z[i]);
      i := i + 1;
      aff := Compare(h, aff);
      if aff == Integer {
        IntegerStays(z, i, |z|);
        break;
      }
    }
  }

  lemma WholePrefix(z: Bytes)
    ensures z[..|z|] == z
  {}

  lemma ContainsPrefix(s: Bytes, i: nat, word: Bytes)
    requires i <= |s| && Contains(s[..i], word)
    ensures Contains(s, word)
  {
    var k :| MatchAt(s[..i], word, k);
    assert MatchAt(s, word, k);
  }

  /** What the loop finds is what the table of the documentation says. */
  lemma {:induction false} AnswerIsDocumented(s: Bytes)
    ensures Answer(s) == Documented(s)
  {
    if s != [] {
      var i := |s| - 1;
      PrefixStep(s, i);
      WholePrefix(s);
      AnswerIsDocumented(s[..i]);
      if Contains(s[..i], INT_WORD) {
        ContainsPrefix(s, i, INT_WORD);
      } else {
        AnswerStep(s[..i], s[i]);
      }
    }
  }

  /** The type name gets the affinity that the documentation of the routine gives it. */
  method AffinityType(z: Bytes) returns (aff: Aff)
    ensures aff == Documented(z)
  {
    aff := Scan(z);
    WholePrefix(z);
    AnswerIsDocumented(z);
  }
}
