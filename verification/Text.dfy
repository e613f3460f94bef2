/** String.prototype.trim, and normalize-email.ts built on it. */
module Text {

  /** WhiteSpace and LineTerminator of ECMA-262. */
  predicate IsSpace(c: char) {
    || '\U{0009}' <= c <= '\U{000D}' || c == '\U{0020}' || c == '\U{00A0}' || c == '\U{1680}'
    || '\U{2000}' <= c <= '\U{200A}' || c == '\U{2028}' || c == '\U{2029}' || c == '\U{202F}'
    || c == '\U{205F}' || c == '\U{3000}' || c == '\U{FEFF}'
  }

  /** There are 25 of them (table 32 of ECMA-262, edition 14, and its line terminators). */
  lemma SpacesAreListed(c: char)
    ensures IsSpace(c) <==>
              c as int in {9, 10, 11, 12, 13, 32, 160, 5760, 8192, 8193, 8194, 8195, 8196, 8197, 8198, 8199, 8200, 8201,
                           8202, 8232, 8233, 8239, 8287, 12288, 65279}
  {
  }

  function TrimStart(s: string): string {
    if s != [] && IsSpace(s[0]) then TrimStart(s[1..]) else s
  }

  function TrimEnd(s: string): string {
    if s != [] && IsSpace(s[|s| - 1]) then TrimEnd(s[..|s| - 1]) else s
  }

  function Trim(s: string): string {
    TrimEnd(TrimStart(s))
  }

  ghost predicate AllSpace(s: string) {
    forall i :: 0 <= i < |s| ==> IsSpace(s[i])
  }

  predicate Trimmed(s: string) {
    s != [] ==> !IsSpace(s[0]) && !IsSpace(s[|s| - 1])
  }

  /** t is s without surrounding white space. */
  ghost predicate Strips(s: string, before: string, t: string, after: string) {
    s == before + t + after && AllSpace(before) && AllSpace(after) && Trimmed(t)
  }

  lemma {:induction false} TrimStartStrips(s: string) returns (before: string)
    ensures s == before + TrimStart(s) && AllSpace(before)
    ensures TrimStart(s) != [] ==> !IsSpace(TrimStart(s)[0])
  {
    if s != [] && IsSpace(s[0]) {
      var rest := TrimStartStrips(s[1..]);
      before := [s[0]] + rest;
    } else {
      before := [];
    }
  }

  lemma {:induction false} TrimEndStrips(s: string) returns (after: string)
    ensures s == TrimEnd(s) + after && AllSpace(after)
    ensures TrimEnd(s) != [] ==> !IsSpace(TrimEnd(s)[|TrimEnd(s)| - 1])
  {
    if s != [] && IsSpace(s[|s| - 1]) {
      var rest := TrimEndStrips(s[..|s| - 1]);
      after := rest + [s[|s| - 1]];
    } else {
      after := [];
    }
  }

  /** Trim removes white space from both ends, all of it and nothing else. */
  lemma TrimStrips(s: string) returns (before: string, after: string)
    ensures Strips(s, before, Trim(s), after)
  {
    before := TrimStartStrips(s);
    after := TrimEndStrips(TrimStart(s));
    if Trim(s) != [] {
      assert Trim(s)[0] == TrimStart(s)[0];
    }
  }

  lemma TrimFixesTrimmed(s: string)
    requires Trimmed(s)
    ensures Trim(s) == s
  {
  }

  lemma TrimIsIdempotent(s: string)
    ensures Trim(Trim(s)) == Trim(s) && |Trim(s)| <= |s|
  {
    var _, _ := TrimStrips(s);
    TrimFixesTrimmed(Trim(s));
  }

  // ---- email normalisation ----

  /** What toLowerCase is trusted with: lowering twice is lowering once, and no end becomes a space. */
  ghost predicate Lowering(lower: string -> string) {
    && (forall s :: lower(lower(s)) == lower(s))
    && (forall s :: Trimmed(s) ==> Trimmed(lower(s)))
  }

  function Normalize(lower: string -> string, email: string): string {
    lower(Trim(email))
  }

  lemma NormalizeIsIdempotent(lower: string -> string, email: string)
    requires Lowering(lower)
    ensures Normalize(lower, Normalize(lower, email)) == Normalize(lower, email)
  {
    var _, _ := TrimStrips(email);
    TrimFixesTrimmed(lower(Trim(email)));
  }

  function LowerChar(c: char): char {
    if 'A' <= c <= 'Z' then (c as int + 32) as char else c
  }

  /** The letters A to Z; every other character is left alone. */
  function LowerAscii(s: string): (r: string)
    ensures |r| == |s|
  {
    seq(|s|, i requires 0 <= i < |s| => LowerChar(s[i]))
  }

  lemma LowerAsciiIsLowering()
    ensures Lowering(LowerAscii)
  {
  }

  /** normalizeEmail, on the ASCII alphabet. */
  function NormalizeEmail(email: string): string {
    Normalize(LowerAscii, email)
  }

  function Upper(k: nat): char
    requires k < 26
  {
    "ABCDEFGHIJKLMNOPQRSTUVWXYZ"[k]
  }

  function Lower(k: nat): char
    requires k < 26
  {
    "abcdefghijklmnopqrstuvwxyz"[k]
  }

  /** The same character, or the same letter in the other case. */
  ghost predicate SameLetter(a: char, b: char) {
    a == b || exists k: nat :: k < 26 && ((a == Upper(k) && b == Lower(k)) || (a == Lower(k) && b == Upper(k)))
  }

  ghost predicate SameLetters(s: string, t: string) {
    |s| == |t| && forall i :: 0 <= i < |s| ==> SameLetter(s[i], t[i])
  }

  /** The two addresses differ in ASCII case and surrounding white space at most. */
  ghost predicate SameAddress(s: string, t: string) {
    SameLetters(Trim(s), Trim(t))
  }

  lemma AlphabetIsInOrder(k: nat)
    requires k < 26
    ensures Upper(k) as int == 65 + k && Lower(k) as int == 97 + k
  {
  }

  lemma AlphabetsAreInOrder()
    ensures forall k: nat :: k < 26 ==> Upper(k) as int == 65 + k && Lower(k) as int == 97 + k
  {
    forall k: nat | k < 26 ensures Upper(k) as int == 65 + k && Lower(k) as int == 97 + k {
      AlphabetIsInOrder(k);
    }
  }

  lemma LetterOf(c: char)
    requires 'A' <= c <= 'Z'
    ensures exists k: nat :: k < 26 && c == Upper(k) && LowerChar(c) == Lower(k)
  {
    AlphabetsAreInOrder();
    hide Upper, Lower;
    var k: nat := c as int - 65;
    assert Upper(k) as int == c as int && Lower(k) as int == LowerChar(c) as int;
  }

  /** Lowering a character gives no capital, the same letter, and what lowering its other case gives. */
  lemma LowerCharLowers(a: char, b: char)
    ensures !('A' <= LowerChar(a) <= 'Z') && SameLetter(LowerChar(a), a)
    ensures LowerChar(a) == LowerChar(b) <==> SameLetter(a, b)
  {
    AlphabetsAreInOrder();
    hide Upper, Lower;
    if 'A' <= a <= 'Z' { LetterOf(a); }
    if 'A' <= b <= 'Z' { LetterOf(b); }
  }

  /** A normalised address holds no capital letter A to Z, has no surrounding white space, and is the address
      itself but for case and surrounding white space. */
  lemma NormalizeEmailLowers(email: string)
    ensures forall k: nat :: k < 26 ==> Upper(k) !in NormalizeEmail(email)
    ensures Trimmed(NormalizeEmail(email)) && SameLetters(NormalizeEmail(email), Trim(email))
  {
    var _, _ := TrimStrips(email);
    var trimmed := Trim(email);
    forall i | 0 <= i < |trimmed|
      ensures !('A' <= NormalizeEmail(email)[i] <= 'Z') && SameLetter(NormalizeEmail(email)[i], trimmed[i])
    {
      LowerCharLowers(trimmed[i], trimmed[i]);
    }
    AlphabetsAreInOrder();
    hide Upper, Lower, Trim, SameLetter;
  }

  /** Two addresses are normalised to one text exactly if they differ in case and surrounding white space at most. */
  lemma NormalizeEmailTells(email: string, other: string)
    ensures NormalizeEmail(email) == NormalizeEmail(other) <==> SameAddress(email, other)
  {
    var s, t := Trim(email), Trim(other);
    forall i | 0 <= i < |s| && i < |t| ensures LowerChar(s[i]) == LowerChar(t[i]) <==> SameLetter(s[i], t[i]) {
      LowerCharLowers(s[i], t[i]);
    }
    hide SameLetter, Trim;
    assert forall i :: 0 <= i < |s| ==> LowerAscii(s)[i] == LowerChar(s[i]);
    assert forall i :: 0 <= i < |t| ==> LowerAscii(t)[i] == LowerChar(t[i]);
    assert |LowerAscii(s)| == |s| && |LowerAscii(t)| == |t|;
    if SameLetters(s, t) {
      assert LowerAscii(s) == LowerAscii(t);
    }
    if LowerAscii(s) == LowerAscii(t) {
      forall i | 0 <= i < |s| ensures SameLetter(s[i], t[i]) {
        assert LowerAscii(s)[i] == LowerAscii(t)[i];
      }
    }
  }
}
