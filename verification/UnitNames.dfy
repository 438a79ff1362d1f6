/** Unit keys and the directories of their groups: the validation of unit names, the canonical and the
    legacy directory name, and the readers of both (internal/cgrouptrack/types.go). Names are strings
    of bytes. */
module UnitNames {
  import opened Options
  import Text

  /** UnitKey */
  datatype Key = Key(user: bool, uid: nat, unit: string)

  /** A group directory: system/name or user/uid/name. */
  datatype Dir = SystemDir(name: string) | UserDir(uid: nat, name: string)

  function DirOf(k: Key, name: string): Dir { if k.user then UserDir(k.uid, name) else SystemDir(name) }

  /** The key of a unit whose group is in the plane of `d`. */
  function KeyIn(d: Dir, unit: string): Key { if d.UserDir? then Key(true, d.uid, unit) else Key(false, 0, unit) }

  const Suffix := ".service"

  /** strings.Count of a non-empty substring. */
  function Count(s: string, sub: string): nat
    requires sub != ""
  {
    if |s| < |sub| then 0
    else if s[..|sub|] == sub then 1 + Count(s[|sub|..], sub)
    else Count(s[1..], sub)
  }

  predicate Forbidden(c: char) { c == '/' || c == '\\' || (c as nat) < 0x20 || c as nat == 0x7f }

  /** validateUnitName */
  predicate ValidUnit(name: string)
  {
    && 0 < |name| <= 255 && Text.ValidUtf8(name)
    && name != "." && name != ".." && (forall i | 0 <= i < |name| :: !Forbidden(name[i]))
    && Text.HasSuffix(name, Suffix) && Count(name, Suffix) == 1 && name != Suffix
    && Text.TrimSuffix(name, Suffix) != "." && Text.TrimSuffix(name, Suffix) != ".."
  }

  /** UnitKey.Validate */
  predicate ValidKey(k: Key) { (!k.user ==> k.uid == 0) && ValidUnit(k.unit) }

  /** DirectoryName: the unit name without its suffix. */
  function Stem(k: Key): string { Text.TrimSuffix(k.unit, Suffix) }

  /** groupComponents */
  function Leaf(k: Key): Dir { DirOf(k, Stem(k)) }

  lemma LeafDistinct(a: Key, b: Key)
    requires ValidKey(a) && ValidKey(b) && a != b
    ensures Leaf(a) != Leaf(b)
  {
    assert a.unit == Stem(a) + Suffix;
    assert b.unit == Stem(b) + Suffix;
  }

  /** DecodeUnitDirectory: the reader of canonical directories. */
  function DecodeDirectory(d: Dir): Option<Key>
  {
    if d.name == "" then None
    else
      var k := KeyIn(d, d.name + Suffix);
      if ValidKey(k) && Stem(k) == d.name then Some(k) else None
  }

  /** It accepts exactly the canonical directories of valid keys, and finds the key. */
  lemma DecodeDirectoryExact(d: Dir, k: Key)
    ensures DecodeDirectory(d) == Some(k) <==> ValidKey(k) && Leaf(k) == d
  {
    if ValidKey(k) && Leaf(k) == d {
      assert k.unit == Stem(k) + Suffix;
      assert k == KeyIn(d, k.unit);
    }
    assert |d.name + Suffix| == |d.name| + |Suffix|;
    hide ValidUnit;
  }

  // ----- base64.RawURLEncoding -----

  function Sextet(n: nat): char
  {
    var v := n % 64;
    if v < 26 then (65 + v) as char
    else if v < 52 then (97 + (v - 26)) as char
    else if v < 62 then (48 + (v - 52)) as char
    else if v == 62 then '-' else '_'
  }

  predicate IsSextet(c: char) { 'A' <= c <= 'Z' || 'a' <= c <= 'z' || '0' <= c <= '9' || c == '-' || c == '_' }

  /** The value of a character of the alphabet. */
  function Value(c: char): (v: nat)
    ensures v < 64
  {
    if 'A' <= c <= 'Z' then c as nat - 65
    else if 'a' <= c <= 'z' then c as nat - 71
    else if '0' <= c <= '9' then c as nat + 4
    else if c == '-' then 62 else 63
  }

  /** The URL-safe alphabet: capital letters, small letters, digits, hyphen and underscore. */
  lemma Alphabet(v: nat)
    requires v < 64
    ensures Sextet(0) == 'A' && Sextet(26) == 'a' && Sextet(52) == '0' && Sextet(62) == '-' && Sextet(63) == '_'
    ensures v < 63 && v !in {25, 51, 61, 62} ==> Sextet(v + 1) as nat == Sextet(v) as nat + 1
  {
  }

  lemma SextetRoundTrip(n: nat)
    ensures IsSextet(Sextet(n)) && Value(Sextet(n)) == n % 64
  {
  }

  function Code(c: char): nat { c as nat % 256 }

  /** Three bytes as four characters. */
  function Quad(a: nat, b: nat, c: nat): (q: string)
    ensures |q| == 4
  {
    [Sextet(a / 4), Sextet(a % 4 * 16 + b / 16), Sextet(b % 16 * 4 + c / 64), Sextet(c)]
  }

  /** EncodeToString */
  function Base64(s: string): string
  {
    if |s| == 0 then ""
    else if |s| == 1 then Quad(Code(s[0]), 0, 0)[..2]
    else if |s| == 2 then Quad(Code(s[0]), Code(s[1]), 0)[..3]
    else Quad(Code(s[0]), Code(s[1]), Code(s[2])) + Base64(s[3..])
  }

  function First(p: nat, q: nat): char
    requires p < 64 && q < 64
  {
    (p * 4 + q / 16) as char
  }

  function Second(q: nat, r: nat): char
    requires q < 64 && r < 64
  {
    (q % 16 * 16 + r / 4) as char
  }

  function Third(r: nat, t: nat): char
    requires r < 64 && t < 64
  {
    (r % 4 * 64 + t) as char
  }

  predicate AllSextets(s: string) { forall i | 0 <= i < |s| :: IsSextet(s[i]) }

  /** The bytes of characters of the alphabet; left-over bits of a short last group are dropped. */
  function Bytes(s: string): Option<string>
  {
    if |s| == 0 then Some("")
    else if |s| == 1 then None
    else if |s| == 2 then Some([First(Value(s[0]), Value(s[1]))])
    else if |s| == 3 then Some([First(Value(s[0]), Value(s[1])), Second(Value(s[1]), Value(s[2]))])
    else
      match Bytes(s[4..])
      case None => None
      case Some(rest) =>
        Some([First(Value(s[0]), Value(s[1])), Second(Value(s[1]), Value(s[2])), Third(Value(s[2]), Value(s[3]))] +
            rest)
  }

  /** The decoder skips line breaks wherever they stand. */
  function WithoutBreaks(s: string): string
  {
    if s == "" then ""
    else (if s[0] == '\n' || s[0] == '\r' then "" else [s[0]]) + WithoutBreaks(s[1..])
  }

  /** DecodeString, which is not strict about left-over bits. */
  function DecodeBase64(s: string): Option<string>
  {
    var t := WithoutBreaks(s);
    if AllSextets(t) then Bytes(t) else None
  }

  lemma {:induction false} NoBreaks(s: string)
    requires AllSextets(s)
    ensures WithoutBreaks(s) == s
  {
    if s != "" {
      NoBreaks(s[1..]);
    }
  }

  lemma QuadSextets(a: nat, b: nat, c: nat)
    ensures AllSextets(Quad(a, b, c))
  {
    SextetRoundTrip(a / 4);
    SextetRoundTrip(a % 4 * 16 + b / 16);
    SextetRoundTrip(b % 16 * 4 + c / 64);
    SextetRoundTrip(c);
    hide Sextet, IsSextet;
  }

  lemma {:induction false} EncodedSextets(s: string)
    ensures AllSextets(Base64(s))
  {
    var a, b := if |s| > 0 then Code(s[0]) else 0, if |s| > 1 then Code(s[1]) else 0;
    QuadSextets(a, b, if |s| > 2 then Code(s[2]) else 0);
    hide Quad, IsSextet, Code;
    if |s| >= 3 {
      EncodedSextets(s[3..]);
    }
  }

  lemma QuadValues(a: nat, b: nat, c: nat)
    requires a < 256 && b < 256 && c < 256
    ensures var q := Quad(a, b, c);
            && Value(q[0]) == a / 4 && Value(q[1]) == a % 4 * 16 + b / 16
            && Value(q[2]) == b % 16 * 4 + c / 64 && Value(q[3]) == c % 64
  {
    SmallSextet(a / 4);
    SmallSextet(a % 4 * 16 + b / 16);
    SmallSextet(b % 16 * 4 + c / 64);
    SextetRoundTrip(c);
    hide Sextet, Value;
  }

  lemma SmallSextet(n: nat)
    requires n < 64
    ensures Value(Sextet(n)) == n
  {
    SextetRoundTrip(n);
    hide Sextet, Value;
  }

  lemma QuadBytes(a: nat, b: nat, c: nat)
    requires a < 256 && b < 256 && c < 256
    ensures var q := Quad(a, b, c);
            && First(Value(q[0]), Value(q[1])) == a as char && Second(Value(q[1]), Value(q[2])) == b as char
            && Third(Value(q[2]), Value(q[3])) == c as char
  {
    QuadValues(a, b, c);
    hide Quad, Value;
    assert a / 4 * 4 + (a % 4 * 16 + b / 16) / 16 == a;
    assert (a % 4 * 16 + b / 16) % 16 * 16 + (b % 16 * 4 + c / 64) / 4 == b;
    assert (b % 16 * 4 + c / 64) % 4 * 64 + c % 64 == c;
  }

  lemma BytesCons(q: string, rest: string)
    requires |q| == 4
    ensures Bytes(q + rest) == match Bytes(rest)
              case None => None
              case Some(r) =>
                Some([First(Value(q[0]), Value(q[1])), Second(Value(q[1]), Value(q[2])),
                    Third(Value(q[2]), Value(q[3]))] + r)
  {
    assert (q + rest)[4..] == rest;
    hide First, Second, Third, Value;
  }

  lemma BytesShort(q: string)
    requires |q| == 4
    ensures Bytes(q[..2]) == Some([First(Value(q[0]), Value(q[1]))])
    ensures Bytes(q[..3]) == Some([First(Value(q[0]), Value(q[1])), Second(Value(q[1]), Value(q[2]))])
  {
    hide First, Second, Third, Value;
  }

  lemma CodeOfByte(c: char)
    requires c as nat < 256
    ensures Code(c) < 256 && Code(c) as char == c
  {
  }

  lemma EncodedParts(s: string)
    ensures |s| == 0 ==> Base64(s) == "" && Bytes("") == Some("")
    ensures |s| == 1 ==> Base64(s) == Quad(Code(s[0]), 0, 0)[..2]
    ensures |s| == 2 ==> Base64(s) == Quad(Code(s[0]), Code(s[1]), 0)[..3]
    ensures |s| >= 3 ==> Base64(s) == Quad(Code(s[0]), Code(s[1]), Code(s[2])) + Base64(s[3..])
  {
    hide Quad, Code;
  }

  lemma {:induction false} BytesOfEncoded(s: string)
    requires Text.IsBytes(s)
    ensures Bytes(Base64(s)) == Some(s)
  {
    EncodedParts(s);
    hide Quad, Value, First, Second, Third, Code, Bytes, Base64;
    if |s| == 1 {
      CodeOfByte(s[0]);
      QuadBytes(Code(s[0]), 0, 0);
      BytesShort(Quad(Code(s[0]), 0, 0));
      assert s == [s[0]];
    } else if |s| == 2 {
      CodeOfByte(s[0]);
      CodeOfByte(s[1]);
      QuadBytes(Code(s[0]), Code(s[1]), 0);
      BytesShort(Quad(Code(s[0]), Code(s[1]), 0));
      assert s == [s[0], s[1]];
    } else if |s| >= 3 {
      CodeOfByte(s[0]);
      CodeOfByte(s[1]);
      CodeOfByte(s[2]);
      QuadBytes(Code(s[0]), Code(s[1]), Code(s[2]));
      BytesOfEncoded(s[3..]);
      BytesCons(Quad(Code(s[0]), Code(s[1]), Code(s[2])), Base64(s[3..]));
      assert s == [s[0], s[1], s[2]] + s[3..];
    }
  }

  /** Decoding what was encoded gives the bytes back. */
  lemma Base64RoundTrip(s: string)
    requires Text.IsBytes(s)
    ensures DecodeBase64(Base64(s)) == Some(s)
  {
    EncodedSextets(s);
    NoBreaks(Base64(s));
    BytesOfEncoded(s);
    hide Bytes, Base64, AllSextets, WithoutBreaks;
  }

  lemma {:induction false} EncodingGrows(s: string)
    ensures |Base64(s)| >= |s|
  {
    hide Quad;
    if |s| >= 3 {
      EncodingGrows(s[3..]);
    }
  }

  // ----- the legacy layout -----

  /** legacyGroupComponents: the encoded full unit name. */
  function Legacy(k: Key): Dir { DirOf(k, Base64(k.unit)) }

  /** decodeLegacyUnitDirectory: only a canonical encoding of a valid unit name is accepted. */
  function DecodeLegacy(d: Dir): Option<Key>
  {
    if d.name == "" then None
    else
      match DecodeBase64(d.name)
      case None => None
      case Some(unit) =>
        var k := KeyIn(d, unit);
        if ValidKey(k) && Base64(unit) == d.name then Some(k) else None
  }

  /** The reader of legacy directories accepts exactly the legacy directories of valid keys, and finds
      the key. */
  lemma DecodeLegacyExact(d: Dir, k: Key)
    ensures DecodeLegacy(d) == Some(k) <==> ValidKey(k) && Legacy(k) == d
  {
    if ValidKey(k) && Legacy(k) == d {
      Text.Utf8IsBytes(k.unit);
      Base64RoundTrip(k.unit);
      EncodingGrows(k.unit);
      assert d.name != "" && k == KeyIn(d, k.unit);
    }
    hide ValidUnit, Base64, DecodeBase64;
  }

  // ----- plain names -----

  predicate PlainStem(s: string)
  {
    && 0 < |s| <= 247
    && forall i | 0 <= i < |s| :: 0x20 <= s[i] as nat < 0x7f && s[i] != '/' && s[i] != '\\' && s[i] != '.'
  }

  lemma {:induction false} CountOnce(stem: string)
    requires '.' !in stem
    ensures Count(stem + Suffix, Suffix) == 1
  {
    var s := stem + Suffix;
    if stem == "" {
      assert s[..|Suffix|] == Suffix && s[|Suffix|..] == "";
    } else {
      assert s[..|Suffix|][0] == stem[0] && Suffix[0] == '.';
      assert s[1..] == stem[1..] + Suffix;
      CountOnce(stem[1..]);
    }
  }

  lemma PlainIsValid(stem: string)
    requires PlainStem(stem)
    ensures ValidUnit(stem + Suffix) && Text.TrimSuffix(stem + Suffix, Suffix) == stem
  {
    var name := stem + Suffix;
    CountOnce(stem);
    PlainBytes(stem);
    hide Count, Text.ValidUtf8, Forbidden, PlainStem;
    assert name[|stem|..] == Suffix && name[..|stem|] == stem;
    assert name[0] == stem[0];
  }

  lemma PlainBytes(stem: string)
    requires PlainStem(stem)
    ensures 0 < |stem| <= 247 && stem[0] != '.' && Text.ValidUtf8(stem + Suffix)
    ensures forall i | 0 <= i < |stem + Suffix| :: !Forbidden((stem + Suffix)[i])
  {
    Text.AsciiIsUtf8(stem + Suffix);
    hide Text.ValidUtf8;
  }

  // ----- valid names, in words -----

  /** The suffix stands at position `i`. */
  predicate At(s: string, i: nat) { i + 8 <= |s| && s[i..i + 8] == ".service" }

  lemma OneDot(s: string, i: nat)
    requires At(s, i)
    ensures s[i] == '.' && forall j | i < j < i + 8 :: s[j] != '.'
  {
    var t := s[i..i + 8];
    assert s[i] == t[0] && s[i + 1] == t[1] && s[i + 2] == t[2] && s[i + 3] == t[3];
    assert s[i + 4] == t[4] && s[i + 5] == t[5] && s[i + 6] == t[6] && s[i + 7] == t[7];
  }

  /** Two occurrences of the suffix never overlap. */
  lemma NoOverlap(s: string, i: nat, j: nat)
    requires At(s, i) && At(s, j) && i < j
    ensures i + 8 <= j
  {
    OneDot(s, i);
    OneDot(s, j);
    hide At;
  }

  lemma {:induction false} CountPositive(stem: string)
    ensures Count(stem + Suffix, Suffix) >= 1
    decreases |stem|
  {
    var s := stem + Suffix;
    if stem == "" {
      assert s[..8] == Suffix;
    } else if s[..8] != Suffix {
      assert s[1..] == stem[1..] + Suffix;
      CountPositive(stem[1..]);
    }
  }

  /** The suffix is counted once exactly if it stands at the end only. */
  lemma {:induction false} CountExact(stem: string)
    ensures Count(stem + Suffix, Suffix) == 1 <==> forall i | 0 <= i < |stem| :: !At(stem + Suffix, i)
    decreases |stem|
  {
    var s := stem + Suffix;
    assert s[|stem|..] == Suffix;
    if stem == "" {
      assert s[..8] == Suffix && s[8..] == "";
    } else if s[..8] == Suffix {
      assert At(s, 0) && At(s, |stem|);
      NoOverlap(s, 0, |stem|);
      assert s[8..] == stem[8..] + Suffix;
      CountPositive(stem[8..]);
    } else {
      assert s[1..] == stem[1..] + Suffix;
      CountExact(stem[1..]);
      assert forall i | 0 <= i < |stem| - 1 :: At(s[1..], i) <==> At(s, i + 1) by {
        forall i | 0 <= i < |stem| - 1 ensures At(s[1..], i) <==> At(s, i + 1) {
          if i + 9 <= |s| { assert s[1..][i..i + 8] == s[i + 1..i + 9]; }
        }
      }
      assert !At(s, 0);
      if forall i | 0 <= i < |stem| - 1 :: !At(s[1..], i) {
        forall i | 0 <= i < |stem| ensures !At(s, i) { if i > 0 { assert !At(s[1..], i - 1); } }
      }
      if forall i | 0 <= i < |stem| :: !At(s, i) {
        forall i | 0 <= i < |stem| - 1 ensures !At(s[1..], i) { assert !At(s, i + 1); }
      }
    }
  }

  /** A stem other than nothing, one or two dots, followed by the suffix, which stands nowhere else. */
  ghost predicate StemOf(name: string, stem: string)
  {
    && stem != "" && stem != "." && stem != ".." && name == stem + ".service"
    && forall i | 0 <= i < |stem| :: !At(name, i)
  }

  predicate Shaped(name: string)
  {
    && name != "." && name != ".." && Text.HasSuffix(name, Suffix) && Count(name, Suffix) == 1 && name != Suffix
    && Text.TrimSuffix(name, Suffix) != "." && Text.TrimSuffix(name, Suffix) != ".."
  }

  lemma ShapeExact(name: string)
    ensures Shaped(name) <==> exists stem :: StemOf(name, stem)
  {
    if Text.HasSuffix(name, Suffix) {
      var stem := name[..|name| - 8];
      assert name == stem + Suffix && Text.TrimSuffix(name, Suffix) == stem;
      assert |name| >= 8 && (name == Suffix <==> stem == "");
      CountExact(stem);
      hide Count, At, Text.HasSuffix, Text.TrimSuffix;
      assert Shaped(name) <==> StemOf(name, stem);
      StemUnique(name, stem);
    } else {
      forall stem ensures !StemOf(name, stem) { NoStem(name, stem); }
    }
    hide *;
  }

  lemma StemUnique(name: string, stem: string)
    requires name == stem + Suffix
    ensures forall other | StemOf(name, other) :: other == stem
  {
    hide At;
    forall other | StemOf(name, other) ensures other == stem {
      assert other == name[..|name| - 8] && stem == name[..|name| - 8];
    }
  }

  lemma NoStem(name: string, stem: string)
    requires !Text.HasSuffix(name, Suffix)
    ensures name != stem + ".service"
  {
    var other := stem + ".service";
    assert other[|other| - 8..] == ".service" && Text.HasSuffix(other, Suffix);
  }

  /** validateUnitName accepts exactly the names of at most 255 valid bytes, without separators and
      control characters, that have that shape. */
  lemma ValidUnitExact(name: string)
    ensures ValidUnit(name) <==>
              && |name| <= 255 && Text.ValidUtf8(name) && (exists stem :: StemOf(name, stem))
              && forall i | 0 <= i < |name| ::
                   name[i] != '/' && name[i] != '\\' && name[i] as nat >= 32 && name[i] as nat != 127
  {
    ShapeExact(name);
    ShapeOfValid(name);
    hide Text.ValidUtf8, Shaped, StemOf, ValidUnit;
  }

  lemma ShapeOfValid(name: string)
    ensures ValidUnit(name) <==>
              Shaped(name) && |name| <= 255 && Text.ValidUtf8(name) && forall i | 0 <= i < |name| :: !Forbidden(name[i])
  {
    hide Text.ValidUtf8, Count, Forbidden, Text.TrimSuffix;
  }
}
