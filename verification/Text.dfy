/** Go string primitives used by the name handling, on byte characters. */
module Text {

  /** Go's `<` on strings. */
  predicate Less(a: string, b: string)
  {
    b != [] && (a == [] || a[0] < b[0] || (a[0] == b[0] && Less(a[1..], b[1..])))
  }

  lemma {:induction false} LessIrreflexive(a: string)
    ensures !Less(a, a)
  {
    if a != [] {
      LessIrreflexive(a[1..]);
    }
  }

  lemma {:induction false} LessTotal(a: string, b: string)
    ensures a == b || Less(a, b) || Less(b, a)
  {
    if a != [] && b != [] {
      LessTotal(a[1..], b[1..]);
      assert a == [a[0]] + a[1..] && b == [b[0]] + b[1..];
    }
  }

  lemma {:induction false} LessTransitive(a: string, b: string, c: string)
    requires Less(a, b) && Less(b, c)
    ensures Less(a, c)
  {
    if a != [] && a[0] == b[0] == c[0] {
      LessTransitive(a[1..], b[1..], c[1..]);
    }
  }

  /** `a` and `b` agree before position `i`, where `a` ends or has the smaller character. */
  predicate SmallerAt(a: string, b: string, i: nat)
  {
    i <= |a| && i < |b| && a[..i] == b[..i] && (i < |a| ==> a[i] < b[i])
  }

  /** The order of strings, from the first difference. */
  lemma {:induction false} LessExact(a: string, b: string)
    ensures Less(a, b) <==> exists i: nat :: SmallerAt(a, b, i)
  {
    if a == [] {
      if b != [] { assert SmallerAt(a, b, 0); }
    } else if b != [] {
      var x, y := a[1..], b[1..];
      LessExact(x, y);
      assert a == [a[0]] + x && b == [b[0]] + y;
      if a[0] < b[0] { assert SmallerAt(a, b, 0); }
      if i: nat :| a[0] == b[0] && SmallerAt(x, y, i) {
        assert a[..i + 1] == [a[0]] + x[..i] && b[..i + 1] == [b[0]] + y[..i];
        assert SmallerAt(a, b, i + 1);
      }
      if i: nat :| SmallerAt(a, b, i) {
        if i > 0 {
          assert a[..i][0] == b[..i][0] && a[..i][1..] == x[..i - 1] && b[..i][1..] == y[..i - 1];
          assert SmallerAt(x, y, i - 1);
        }
      }
    }
  }

  /** `Less` is a linear order on all strings. */
  lemma LessLinear()
    ensures forall a :: !Less(a, a)
    ensures forall a, b :: a == b || Less(a, b) || Less(b, a)
    ensures forall a, b, c | Less(a, b) && Less(b, c) :: Less(a, c)
  {
    forall a ensures !Less(a, a) { LessIrreflexive(a); }
    forall a, b ensures a == b || Less(a, b) || Less(b, a) { LessTotal(a, b); }
    forall a, b, c | Less(a, b) && Less(b, c) ensures Less(a, c) { LessTransitive(a, b, c); }
  }

  /** Lexicographic comparison of several fields in turn. */
  predicate LexLess(a: seq<string>, b: seq<string>)
  {
    b != [] && (a == [] || Less(a[0], b[0]) || (a[0] == b[0] && LexLess(a[1..], b[1..])))
  }

  lemma {:induction false} LexIrreflexive(a: seq<string>)
    ensures !LexLess(a, a)
  {
    if a != [] {
      LessIrreflexive(a[0]);
      LexIrreflexive(a[1..]);
    }
  }

  lemma {:induction false} LexTotal(a: seq<string>, b: seq<string>)
    ensures a == b || LexLess(a, b) || LexLess(b, a)
  {
    if a != [] && b != [] {
      LessTotal(a[0], b[0]);
      LexTotal(a[1..], b[1..]);
      assert a == [a[0]] + a[1..] && b == [b[0]] + b[1..];
    }
  }

  lemma {:induction false} LexTransitive(a: seq<string>, b: seq<string>, c: seq<string>)
    requires LexLess(a, b) && LexLess(b, c)
    ensures LexLess(a, c)
  {
    if a != [] {
      if Less(a[0], b[0]) && Less(b[0], c[0]) {
        LessTransitive(a[0], b[0], c[0]);
      } else if a[0] == b[0] == c[0] {
        LessIrreflexive(a[0]);
        LexTransitive(a[1..], b[1..], c[1..]);
      }
    }
  }

  predicate IsSpace(c: char)
  {
    c in [' ', '\t', '\n', 11 as char, 12 as char, '\r']
  }

  /** Tab, line feed, vertical tab, form feed, carriage return and blank. */
  lemma SpaceExact(c: char)
    ensures IsSpace(c) <==> 9 <= c as nat <= 13 || c as nat == 32
  {
  }

  function TrimLeft(s: string): string
  {
    if s != [] && IsSpace(s[0]) then TrimLeft(s[1..]) else s
  }

  function TrimRight(s: string): string
  {
    if s != [] && IsSpace(s[|s| - 1]) then TrimRight(s[..|s| - 1]) else s
  }

  /** strings.TrimSpace */
  function TrimSpace(s: string): string { TrimRight(TrimLeft(s)) }

  predicate HasSuffix(s: string, suffix: string)
  {
    |suffix| <= |s| && s[|s| - |suffix|..] == suffix
  }

  /** strings.TrimSuffix */
  function TrimSuffix(s: string, suffix: string): string
  {
    if HasSuffix(s, suffix) then s[..|s| - |suffix|] else s
  }

  /** No blank at either end. */
  predicate Trimmed(s: string)
  {
    s == [] || (!IsSpace(s[0]) && !IsSpace(s[|s| - 1]))
  }

  lemma {:induction false} TrimLeftSuffix(s: string)
    ensures TrimLeft(s) == [] || !IsSpace(TrimLeft(s)[0])
    ensures |TrimLeft(s)| <= |s| && TrimLeft(s) == s[|s| - |TrimLeft(s)|..]
  {
    if s != [] && IsSpace(s[0]) {
      TrimLeftSuffix(s[1..]);
    }
  }

  lemma {:induction false} TrimRightPrefix(s: string)
    ensures TrimRight(s) <= s
    ensures TrimRight(s) == [] || !IsSpace(TrimRight(s)[|TrimRight(s)| - 1])
  {
    if s != [] && IsSpace(s[|s| - 1]) {
      TrimRightPrefix(s[..|s| - 1]);
    }
  }

  /** Trimming yields a trimmed substring, and leaves a trimmed string alone. */
  lemma TrimSpaceTrims(s: string)
    ensures Trimmed(TrimSpace(s))
    ensures forall c | c in TrimSpace(s) :: c in s
    ensures Trimmed(s) ==> TrimSpace(s) == s
  {
    TrimLeftSuffix(s);
    TrimRightPrefix(TrimLeft(s));
  }

  /** Trimming only shortens, and a string of the same length is the string itself. */
  lemma TrimSpaceShorter(s: string)
    ensures |TrimSpace(s)| <= |s| && (TrimSpace(s) == s <==> Trimmed(s))
  {
    TrimSpaceTrims(s);
    TrimLeftSuffix(s);
    TrimRightPrefix(TrimLeft(s));
  }

  predicate Continuation(c: char) { 0x80 <= c as nat < 0xC0 }

  /** utf8.ValidString on a string of bytes: shortest form, no surrogates, at most U+10FFFF. */
  predicate ValidUtf8(s: string)
  {
    if s == [] then true
    else
      var c := s[0] as nat;
      if c < 0x80 then ValidUtf8(s[1..])
      else if 0xC2 <= c < 0xE0 then |s| >= 2 && Continuation(s[1]) && ValidUtf8(s[2..])
      else if 0xE0 <= c < 0xF0 then
        && |s| >= 3 && Continuation(s[1]) && Continuation(s[2])
        && (c == 0xE0 ==> s[1] as nat >= 0xA0) && (c == 0xED ==> (s[1] as nat) < 0xA0) && ValidUtf8(s[3..])
      else if 0xF0 <= c < 0xF5 then
        && |s| >= 4 && Continuation(s[1]) && Continuation(s[2]) && Continuation(s[3])
        && (c == 0xF0 ==> s[1] as nat >= 0x90) && (c == 0xF4 ==> (s[1] as nat) < 0x90) && ValidUtf8(s[4..])
      else false
  }

  predicate IsBytes(s: string) { forall i | 0 <= i < |s| :: s[i] as nat < 256 }

  lemma {:induction false} AsciiIsUtf8(s: string)
    requires forall i | 0 <= i < |s| :: s[i] as nat < 0x80
    ensures ValidUtf8(s)
  {
    if s != [] {
      AsciiIsUtf8(s[1..]);
    }
  }

  /** A valid string consists of bytes. */
  lemma {:induction false} Utf8IsBytes(s: string)
    requires ValidUtf8(s)
    ensures IsBytes(s)
  {
    if s != [] {
      var c := s[0] as nat;
      var n := if c < 0x80 then 1 else if c < 0xE0 then 2 else if c < 0xF0 then 3 else 4;
      Utf8IsBytes(s[n..]);
      assert s == s[..n] + s[n..];
    }
  }

  // ----- UTF-8, from code points -----

  /** A Unicode scalar value: no surrogate, at most U+10FFFF. */
  predicate Scalar(cp: nat) { cp < 0x110000 && !(0xD800 <= cp < 0xE000) }

  /** The bytes of one code point. */
  function RuneBytes(cp: nat): string
    requires Scalar(cp)
  {
    if cp < 0x80 then [cp as char]
    else if cp < 0x800 then [(0xC0 + cp / 0x40) as char, (0x80 + cp % 0x40) as char]
    else if cp < 0x10000 then
      [(0xE0 + cp / 0x1000) as char, (0x80 + cp / 0x40 % 0x40) as char, (0x80 + cp % 0x40) as char]
    else
      [(0xF0 + cp / 0x40000) as char, (0x80 + cp / 0x1000 % 0x40) as char, (0x80 + cp / 0x40 % 0x40) as char,
       (0x80 + cp % 0x40) as char]
  }

  predicate Scalars(cps: seq<nat>) { forall i | 0 <= i < |cps| :: Scalar(cps[i]) }

  function Utf8(cps: seq<nat>): string
    requires Scalars(cps)
  {
    if cps == [] then "" else RuneBytes(cps[0]) + Utf8(cps[1..])
  }

  /** The length and well-formedness of the first encoded code point. */
  predicate GoodHead(b: string)
  {
    var n := |b|;
    && 1 <= n <= 4 && (forall i | 1 <= i < n :: Continuation(b[i]))
    && var c := b[0] as nat;
       if n == 1 then c < 0x80
       else if n == 2 then 0xC2 <= c < 0xE0
       else if n == 3 then 0xE0 <= c < 0xF0 && (c == 0xE0 ==> b[1] as nat >= 0xA0) &&
           (c == 0xED ==> (b[1] as nat) < 0xA0)
       else 0xF0 <= c < 0xF5 && (c == 0xF0 ==> b[1] as nat >= 0x90) && (c == 0xF4 ==> (b[1] as nat) < 0x90)
  }

  lemma HeadIsValid(b: string, rest: string)
    requires GoodHead(b)
    ensures ValidUtf8(b + rest) <==> ValidUtf8(rest)
  {
    var s := b + rest;
    assert s[|b|..] == rest && forall i | 0 <= i < |b| :: s[i] == b[i];
  }

  lemma RuneIsGood(cp: nat)
    requires Scalar(cp)
    ensures GoodHead(RuneBytes(cp))
  {
    if 0x800 <= cp < 0x10000 {
      assert cp / 0x1000 == 0xD ==> cp / 0x40 % 0x40 == cp / 0x40 - 0x340;
      assert cp / 0x1000 == 0 ==> cp / 0x40 % 0x40 == cp / 0x40;
    } else if cp >= 0x10000 {
      assert cp / 0x40000 == 0 ==> cp / 0x1000 % 0x40 == cp / 0x1000;
      assert cp / 0x40000 == 4 ==> cp / 0x1000 % 0x40 == cp / 0x1000 - 0x100;
    }
  }

  lemma RuneIsValid(cp: nat, rest: string)
    requires Scalar(cp)
    ensures ValidUtf8(RuneBytes(cp) + rest) <==> ValidUtf8(rest)
  {
    RuneIsGood(cp);
    hide RuneBytes, ValidUtf8, GoodHead;
    HeadIsValid(RuneBytes(cp), rest);
  }

  /** A valid string starts with the bytes of some code point. */
  lemma FirstRune(s: string) returns (cp: nat)
    requires s != "" && ValidUtf8(s)
    ensures Scalar(cp) && |RuneBytes(cp)| <= |s| && s[..|RuneBytes(cp)|] == RuneBytes(cp)
  {
    var c := s[0] as nat;
    if c < 0x80 {
      cp := c;
    } else if c < 0xE0 {
      cp := (c - 0xC0) * 0x40 + (s[1] as nat - 0x80);
      TwoBytes(s[0], s[1], cp);
    } else if c < 0xF0 {
      cp := (c - 0xE0) * 0x1000 + (s[1] as nat - 0x80) * 0x40 + (s[2] as nat - 0x80);
      ThreeBytes(s[0], s[1], s[2], cp);
    } else {
      cp := (c - 0xF0) * 0x40000 + (s[1] as nat - 0x80) * 0x1000 + (s[2] as nat - 0x80) * 0x40 + (s[3] as nat - 0x80);
      FourBytes(s[0], s[1], s[2], s[3], cp);
    }
    hide ValidUtf8;
  }

  lemma TwoBytes(a: char, b: char, cp: nat)
    requires 0xC2 <= a as nat < 0xE0 && Continuation(b) && cp == (a as nat - 0xC0) * 0x40 + (b as nat - 0x80)
    ensures Scalar(cp) && RuneBytes(cp) == [a, b]
  {
    assert cp / 0x40 == a as nat - 0xC0 && cp % 0x40 == b as nat - 0x80;
  }

  lemma ThreeBytes(a: char, b: char, c: char, cp: nat)
    requires 0xE0 <= a as nat < 0xF0 && Continuation(b) && Continuation(c)
    requires (a as nat == 0xE0 ==> b as nat >= 0xA0) && (a as nat == 0xED ==> (b as nat) < 0xA0)
    requires cp == (a as nat - 0xE0) * 0x1000 + (b as nat - 0x80) * 0x40 + (c as nat - 0x80)
    ensures Scalar(cp) && RuneBytes(cp) == [a, b, c]
  {
    var x, y, z := a as nat - 0xE0, b as nat - 0x80, c as nat - 0x80;
    assert cp / 0x1000 == x && cp / 0x40 == x * 0x40 + y && cp % 0x40 == z;
    assert cp / 0x40 % 0x40 == y;
  }

  lemma FourBytes(a: char, b: char, c: char, d: char, cp: nat)
    requires 0xF0 <= a as nat < 0xF5 && Continuation(b) && Continuation(c) && Continuation(d)
    requires (a as nat == 0xF0 ==> b as nat >= 0x90) && (a as nat == 0xF4 ==> (b as nat) < 0x90)
    requires cp == (a as nat - 0xF0) * 0x40000 + (b as nat - 0x80) * 0x1000 + (c as nat - 0x80) * 0x40 +
              (d as nat - 0x80)
    ensures Scalar(cp) && RuneBytes(cp) == [a, b, c, d]
  {
    var x, y, z, u := a as nat - 0xF0, b as nat - 0x80, c as nat - 0x80, d as nat - 0x80;
    assert cp / 0x40000 == x && cp / 0x1000 == x * 0x40 + y && cp / 0x40 == x * 0x1000 + y * 0x40 + z && cp % 0x40 == u;
    assert cp / 0x1000 % 0x40 == y && cp / 0x40 % 0x40 == z;
  }

  /** What utf8.Valid accepts is exactly what encoding scalar values gives. */
  lemma {:induction false} EncodedIsValid(cps: seq<nat>)
    requires Scalars(cps)
    ensures ValidUtf8(Utf8(cps))
  {
    if cps != [] {
      EncodedIsValid(cps[1..]);
      RuneIsValid(cps[0], Utf8(cps[1..]));
      hide RuneBytes;
    }
  }

  lemma {:induction false} ValidIsEncoded(s: string) returns (cps: seq<nat>)
    requires ValidUtf8(s)
    ensures Scalars(cps) && Utf8(cps) == s
    decreases |s|
  {
    if s == "" {
      cps := [];
    } else {
      var cp := FirstRune(s);
      var n := |RuneBytes(cp)|;
      assert n > 0 && s == RuneBytes(cp) + s[n..];
      RuneIsValid(cp, s[n..]);
      hide RuneBytes, ValidUtf8;
      var rest := ValidIsEncoded(s[n..]);
      cps := [cp] + rest;
      assert cps[1..] == rest;
    }
  }
}
