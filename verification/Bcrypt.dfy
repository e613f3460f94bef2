/** What bcrypt makes of a password: the 72 bytes that key its cipher. The UTF-8 bytes of the password, cut off
    after 72, and a zero byte are repeated until 72 bytes are full. */
module Bcrypt {

  /** A byte. */
  type Byte = b: int | 0 <= b < 256

  /** The six bits of a continuation byte. */
  function Continuation(n: nat): Byte {
    0x80 + n % 64
  }

  /** The bytes of one character (section 3 of RFC 3629). */
  function Encode(c: char): (bytes: seq<Byte>)
    ensures 1 <= |bytes| <= 4
  {
    var n := c as int;
    if n < 0x80 then [n]
    else if n < 0x800 then [0xC0 + n / 64, Continuation(n)]
    else if n < 0x1_0000 then [0xE0 + n / 64 / 64, Continuation(n / 64), Continuation(n)]
    else [0xF0 + n / 64 / 64 / 64, Continuation(n / 64 / 64), Continuation(n / 64), Continuation(n)]
  }

  function Utf8(s: string): (bytes: seq<Byte>)
    ensures |bytes| >= |s|
  {
    if s == "" then [] else Encode(s[0]) + Utf8(s[1..])
  }

  const KEY_LENGTH: int := 72

  /** The first 72 bytes of a password. */
  function Cut(password: string): (bytes: seq<Byte>)
    ensures |bytes| <= KEY_LENGTH
  {
    var bytes := Utf8(password);
    if |bytes| <= KEY_LENGTH then bytes else bytes[..KEY_LENGTH]
  }

  /** The bytes that are repeated. */
  function Material(password: string): (bytes: seq<Byte>)
    ensures bytes != []
  {
    Cut(password) + [0]
  }

  /** Byte i of the repetition. */
  function Cyclic(bytes: seq<Byte>, i: nat): Byte
    requires bytes != []
  {
    if i < |bytes| then bytes[i] else Cyclic(bytes, i - |bytes|)
  }

  function Key(password: string): (key: seq<Byte>)
    ensures |key| == KEY_LENGTH
  {
    seq(KEY_LENGTH, i requires 0 <= i < KEY_LENGTH => Cyclic(Material(password), i))
  }

  // ---- which passwords have the same key ----

  lemma SixBits(m: nat, n: nat)
    requires m / 64 == n / 64 && Continuation(m) == Continuation(n)
    ensures m == n
  {
    assert m == m / 64 * 64 + m % 64 && n == n / 64 * 64 + n % 64;
  }

  lemma EncodeIsInjective(a: char, b: char)
    requires Encode(a) == Encode(b)
    ensures a == b
  {
    var m, n := a as int, b as int;
    var x, y := Encode(a), Encode(b);
    assert x[0] == y[0];
    if |x| == 2 {
      assert x[1] == y[1];
      SixBits(m, n);
    } else if |x| == 3 {
      assert x[1] == y[1] && x[2] == y[2];
      SixBits(m / 64, n / 64);
      SixBits(m, n);
    } else if |x| == 4 {
      assert x[1] == y[1] && x[2] == y[2] && x[3] == y[3];
      SixBits(m / 64 / 64, n / 64 / 64);
      SixBits(m / 64, n / 64);
      SixBits(m, n);
    }
    assert m == n;
  }

  /** The first byte tells how many there are. */
  lemma LeadTellsLength(a: char, b: char)
    requires Encode(a)[0] == Encode(b)[0]
    ensures |Encode(a)| == |Encode(b)|
  {
  }

  /** No encoding of a character continues that of another. */
  lemma EncodeIsPrefixFree(a: char, b: char, rest: seq<Byte>, other: seq<Byte>)
    requires Encode(a) + rest == Encode(b) + other
    ensures a == b && rest == other
  {
    hide Encode;
    assert Encode(a)[0] == (Encode(a) + rest)[0] == (Encode(b) + other)[0] == Encode(b)[0];
    LeadTellsLength(a, b);
    assert Encode(a) == (Encode(a) + rest)[..|Encode(a)|] == (Encode(b) + other)[..|Encode(b)|] == Encode(b);
    assert rest == (Encode(a) + rest)[|Encode(a)|..] == (Encode(b) + other)[|Encode(b)|..] == other;
    EncodeIsInjective(a, b);
  }

  /** Only the NUL character has a zero byte. */
  lemma NoZeroInEncoding(c: char)
    requires c != '\0'
    ensures 0 !in Encode(c)
  {
  }

  lemma {:induction false} Utf8IsInjective(s: string, t: string)
    requires Utf8(s) == Utf8(t)
    ensures s == t
  {
    if s != "" && t != "" {
      EncodeIsPrefixFree(s[0], t[0], Utf8(s[1..]), Utf8(t[1..]));
      Utf8IsInjective(s[1..], t[1..]);
      assert s == [s[0]] + s[1..] && t == [t[0]] + t[1..];
    }
  }

  lemma {:induction false} NoZeroBytes(s: string)
    requires '\0' !in s
    ensures 0 !in Utf8(s)
  {
    if s != "" {
      NoZeroInEncoding(s[0]);
      hide Encode;
      NoZeroBytes(s[1..]);
    }
  }

  /** The first round of the repetition. */
  lemma KeyBeginsWith(password: string, i: nat)
    requires i <= |Cut(password)| && i < KEY_LENGTH
    ensures Key(password)[i] == if i < |Cut(password)| then Cut(password)[i] else 0
  {
    hide Cut;
  }

  lemma NotShorter(a: string, b: string)
    requires Key(a) == Key(b) && '\0' !in b
    ensures |Cut(a)| >= |Cut(b)|
  {
    var n := |Cut(a)|;
    if n < |Cut(b)| {
      assert Cut(b)[n] in Utf8(b);
      NoZeroBytes(b);
      hide Utf8, Key, Cut;
      KeyBeginsWith(b, n);
      KeyBeginsWith(a, n);
    }
  }

  /** bcrypt takes two passwords without NUL characters for one exactly if they agree in their first 72 bytes. */
  lemma KeysCompareCuts(a: string, b: string)
    requires '\0' !in a && '\0' !in b
    ensures Key(a) == Key(b) <==> Cut(a) == Cut(b)
  {
    if Cut(a) == Cut(b) {
      assert Material(a) == Material(b);
    }
    hide Utf8, Key, Cut;
    if Key(a) == Key(b) {
      NotShorter(a, b);
      NotShorter(b, a);
      forall i | 0 <= i < |Cut(a)| ensures Cut(a)[i] == Cut(b)[i] {
        KeyBeginsWith(a, i);
        KeyBeginsWith(b, i);
      }
    }
  }

  // ---- texts and their bytes ----

  lemma {:induction false} Utf8OfConcat(s: string, t: string)
    ensures Utf8(s + t) == Utf8(s) + Utf8(t)
  {
    if s == "" {
      assert s + t == t;
    } else {
      assert (s + t)[1..] == s[1..] + t;
      Utf8OfConcat(s[1..], t);
    }
  }

  /** A text whose bytes begin with those of another begins with it. */
  lemma {:induction false} BytesOfPrefix(p: string, q: string, rest: seq<Byte>)
    requires Utf8(q) == Utf8(p) + rest
    ensures |p| <= |q| && q[..|p|] == p
  {
    if p != "" {
      assert q != "";
      hide Encode;
      assert Encode(q[0]) + Utf8(q[1..]) == Encode(p[0]) + (Utf8(p[1..]) + rest);
      EncodeIsPrefixFree(q[0], p[0], Utf8(q[1..]), Utf8(p[1..]) + rest);
      BytesOfPrefix(p[1..], q[1..], rest);
      assert p == [p[0]] + p[1..] && q[..|p|] == [q[0]] + q[1..][..|p| - 1];
    }
  }

  // ---- the only password with its key ----

  /** A character of several bytes, and another one that begins with the same byte. */
  function Sibling(c: char): (d: char)
    requires c as int >= 0x80
    ensures d != c && d as int >= 0x80
  {
    var n := c as int;
    if n % 2 == 0 then (n + 1) as char else (n - 1) as char
  }

  lemma SameSixtyFour(m: nat, n: nat)
    requires n == if m % 2 == 0 then m + 1 else m - 1
    ensures n / 64 == m / 64
  {
    var q, half := m / 64, m / 2;
    assert 64 * q <= m < 64 * q + 64;
    if m % 2 == 0 {
      assert m == 2 * half && half < 32 * q + 32;
    } else {
      assert m == 2 * half + 1 && half >= 32 * q;
    }
    assert 64 * q <= n < 64 * q + 64;
  }

  lemma SiblingsBeginAlike(c: char)
    requires c as int >= 0x80
    ensures Encode(Sibling(c))[0] == Encode(c)[0]
  {
    SameSixtyFour(c as int, Sibling(c) as int);
  }

  /** What has more than one byte is no ASCII character. */
  lemma LongCharacter(c: char)
    requires |Encode(c)| > 1
    ensures c as int >= 0x80
  {
  }

  lemma Utf8OfOne(c: char)
    ensures Utf8([c]) == Encode(c)
  {
    assert Utf8([c][1..]) == [];
  }

  lemma CutOfLonger(s: string, t: string, more: seq<Byte>)
    requires |Utf8(s)| >= KEY_LENGTH && Utf8(t) == Utf8(s) + more
    ensures Cut(t) == Cut(s)
  {
    hide Utf8;
  }

  /** A text of 72 characters and more bytes has a sibling: shorter by one character, or with another last one. */
  lemma SiblingText(p: string) returns (q: string)
    requires |p| == KEY_LENGTH < |Utf8(p)| && '\0' !in p
    ensures q != p && KEY_LENGTH - 1 <= |q| <= KEY_LENGTH && '\0' !in q && Cut(q) == Cut(p)
  {
    var init, c := p[..KEY_LENGTH - 1], p[KEY_LENGTH - 1];
    assert p == init + [c];
    Utf8OfConcat(init, [c]);
    Utf8OfOne(c);
    if |Utf8(init)| >= KEY_LENGTH {
      q := init;
      CutOfLonger(init, p, Encode(c));
    } else {
      LongCharacter(c);
      q := init + [Sibling(c)];
      Utf8OfConcat(init, [Sibling(c)]);
      Utf8OfOne(Sibling(c));
      SiblingsBeginAlike(c);
      hide Utf8, Encode;
      assert q[KEY_LENGTH - 1] != p[KEY_LENGTH - 1];
      assert Cut(q) == Utf8(init) + [Encode(c)[0]] == Cut(p);
    }
  }

  /** With 72 bytes or more, unless they are 72 characters, there is another text with the same first 72 bytes. */
  lemma AnotherText(p: string) returns (q: string)
    requires 8 <= |p| <= KEY_LENGTH <= |Utf8(p)| && '\0' !in p && !(|p| == |Utf8(p)|)
    ensures q != p && 8 <= |q| <= KEY_LENGTH && '\0' !in q && Cut(q) == Cut(p)
  {
    if |p| < KEY_LENGTH {
      q := p + "a";
      Utf8OfConcat(p, "a");
      CutOfLonger(p, q, Utf8("a"));
    } else {
      q := SiblingText(p);
    }
  }

  /** A login may present this password, and bcrypt takes it for the other. */
  predicate Opens(q: string, p: string) {
    1 <= |q| <= KEY_LENGTH && Key(q) == Key(p)
  }

  lemma ShortIsOnly(p: string, q: string)
    requires |Utf8(p)| < KEY_LENGTH && '\0' !in p && '\0' !in q && Key(q) == Key(p)
    ensures q == p
  {
    KeysCompareCuts(p, q);
    hide Key;
    assert Utf8(q) == Utf8(p) by { hide Utf8; }
    Utf8IsInjective(p, q);
  }

  lemma FullIsOnly(p: string, q: string)
    requires |p| == KEY_LENGTH == |Utf8(p)| && '\0' !in p && Opens(q, p)
    ensures q == p
  {
    hide Utf8, Key;
    NotShorter(q, p);
    forall i | 0 <= i < KEY_LENGTH ensures Utf8(q)[i] == Utf8(p)[i] {
      KeyBeginsWith(p, i);
      KeyBeginsWith(q, i);
    }
    assert Utf8(q) == Utf8(p) + Utf8(q)[KEY_LENGTH..];
    BytesOfPrefix(p, q, Utf8(q)[KEY_LENGTH..]);
  }

  /** A password without NUL characters is the only such password that opens its account exactly if it has fewer
      than 72 bytes, or is 72 ASCII characters. */
  lemma OnlyWithoutNul(p: string)
    requires 8 <= |p| <= KEY_LENGTH && '\0' !in p
    ensures (forall q :: Opens(q, p) && '\0' !in q ==> q == p)
            <==> |Utf8(p)| < KEY_LENGTH || |p| == KEY_LENGTH == |Utf8(p)|
  {
    if |Utf8(p)| < KEY_LENGTH {
      forall q | Opens(q, p) && '\0' !in q ensures q == p { ShortIsOnly(p, q); }
    } else if |p| == |Utf8(p)| {
      forall q | Opens(q, p) && '\0' !in q ensures q == p { FullIsOnly(p, q); }
    } else {
      var q := AnotherText(p);
      KeysCompareCuts(p, q);
      assert Opens(q, p);
    }
  }

  // ---- texts with NUL characters ----

  lemma {:induction false} TwiceIsOnce(bytes: seq<Byte>, i: nat)
    requires bytes != []
    ensures Cyclic(bytes + bytes, i) == Cyclic(bytes, i)
  {
    if i >= 2 * |bytes| {
      TwiceIsOnce(bytes, i - 2 * |bytes|);
      assert Cyclic(bytes, i) == Cyclic(bytes, i - |bytes|) == Cyclic(bytes, i - 2 * |bytes|);
    }
  }

  lemma Utf8OfRepetition(password: string)
    ensures Utf8(password + "\0" + password) == Utf8(password) + [0] + Utf8(password)
  {
    Utf8OfConcat(password + "\0", password);
    Utf8OfConcat(password, "\0");
    assert Utf8("\0") == [0];
    hide Utf8;
  }

  /** A password, NUL, and the password again has the key of the password alone. */
  lemma RepetitionSharesTheKey(password: string)
    requires |Utf8(password + "\0" + password)| <= KEY_LENGTH
    ensures Key(password + "\0" + password) == Key(password)
  {
    Utf8OfRepetition(password);
    hide Utf8;
    var once := Material(password);
    assert Material(password + "\0" + password) == once + once;
    forall i | 0 <= i < KEY_LENGTH ensures Cyclic(once + once, i) == Cyclic(once, i) {
      TwiceIsOnce(once, i);
    }
  }

  /** So does what of that has 72 bytes or more. */
  lemma LongRepetitionSharesTheKey(password: string, q: string, rest: string)
    requires |Utf8(password)| < KEY_LENGTH <= |Utf8(q)| && q + rest == password + "\0" + password
    ensures Key(q) == Key(password)
  {
    Utf8OfRepetition(password);
    Utf8OfConcat(q, rest);
    var once := Material(password);
    assert once == Utf8(password) + [0];
    assert |Utf8(q)| <= 2 * |Utf8(password)| + 1;
    hide Utf8;
    forall i | 0 <= i < KEY_LENGTH ensures Key(q)[i] == Cyclic(once, i) {
      KeyBeginsWith(q, i);
      assert Cut(q)[i] == (Utf8(q) + Utf8(rest))[i] == (once + Utf8(password))[i];
      if i >= |once| {
        assert Cyclic(once, i) == Cyclic(once, i - |once|) == once[i - |once|];
      }
    }
  }

  /** Every short password has a repetition that a login may present. */
  lemma RepetitionOpens(p: string) returns (q: string)
    requires 8 <= |p| && |Utf8(p)| < KEY_LENGTH
    ensures q != p && Opens(q, p)
  {
    var twice := p + "\0" + p;
    if |Utf8(twice)| <= KEY_LENGTH {
      q := twice;
      RepetitionSharesTheKey(p);
      assert |q| != |p|;
    } else {
      q := if |twice| <= KEY_LENGTH then twice else twice[..KEY_LENGTH];
      assert q + twice[|q|..] == twice;
      LongRepetitionSharesTheKey(p, q, twice[|q|..]);
      assert |q| != |p|;
    }
    hide Key, Utf8;
  }

  /** Among all passwords that a login may present, one without NUL characters is the only one that opens its
      account exactly if it is 72 ASCII characters. */
  lemma OnlyOfAll(p: string)
    requires 8 <= |p| <= KEY_LENGTH && '\0' !in p
    ensures (forall q :: Opens(q, p) ==> q == p) <==> |p| == KEY_LENGTH == |Utf8(p)|
  {
    if |p| == KEY_LENGTH == |Utf8(p)| {
      forall q | Opens(q, p) ensures q == p { FullIsOnly(p, q); }
    } else if |Utf8(p)| < KEY_LENGTH {
      var q := RepetitionOpens(p);
    } else {
      OnlyWithoutNul(p);
    }
  }

  // ---- an example ----

  /** The letter e with an acute accent, n times. */
  function Accents(n: nat): (s: string)
    ensures |s| == n
  {
    seq(n, _ => '\U{00E9}')
  }

  lemma {:induction false} Utf8OfAccents(n: nat)
    ensures |Utf8(Accents(n))| == 2 * n
    ensures forall i :: 0 <= i < 2 * n ==> Utf8(Accents(n))[i] == if i % 2 == 0 then 0xC3 else 0xA9
  {
    if n > 0 {
      Utf8OfAccents(n - 1);
      assert Accents(n)[1..] == Accents(n - 1);
    }
  }

  /** 36 and 37 of them are two passwords, both of at most 72 characters, with one key: they have 72 and 74
      bytes. */
  lemma AccentsShareAKey()
    ensures Accents(36) != Accents(37) && Key(Accents(36)) == Key(Accents(37))
  {
    assert |Accents(36)| != |Accents(37)|;
    Utf8OfAccents(36);
    Utf8OfAccents(37);
    hide Utf8, Accents;
    assert Cut(Accents(36)) == Cut(Accents(37));
    assert Material(Accents(36)) == Material(Accents(37));
  }
}
