/** Stable node identifiers: escaped segments joined with colons (internal/statusview/model.go). */
module NodeId {
  import opened Options
  import Text

  /** isIDByte */
  predicate IsIdByte(c: char)
  {
    'A' <= c <= 'Z' || 'a' <= c <= 'z' || '0' <= c <= '9' || c == '.' || c == '_' || c == '@' || c == '-'
  }

  predicate IsBytes(s: string) { forall c | c in s :: c as nat < 256 }

  function Hex(n: nat): char
    requires n < 16
  {
    if n < 10 then (48 + n) as char else (55 + n) as char
  }

  function EncodeByte(c: char): string
  {
    if IsIdByte(c) then [c] else ['%', Hex(c as nat / 16 % 16), Hex(c as nat % 16)]
  }

  /** encodeIDSegment */
  function Encode(s: string): string
  {
    if s == "" then "" else EncodeByte(s[0]) + Encode(s[1..])
  }

  function Unhex(c: char): nat { if c as nat >= 65 then c as nat - 55 else if c as nat >= 48 then c as nat - 48 else 0 }

  /** The reader of escaped segments. */
  function Decode(s: string): string
  {
    if s == "" then ""
    else if s[0] == '%' && |s| >= 3 then [((Unhex(s[1]) * 16 + Unhex(s[2])) % 256) as char] + Decode(s[3..])
    else [s[0]] + Decode(s[1..])
  }

  lemma HexRoundTrip(n: nat)
    requires n < 16
    ensures Unhex(Hex(n)) == n
  {
  }

  lemma DecodeEscaped(high: nat, low: nat, rest: string)
    requires high < 16 && low < 16
    ensures Decode(['%', Hex(high), Hex(low)] + rest) == [(high * 16 + low) as char] + Decode(rest)
  {
    HexRoundTrip(high);
    HexRoundTrip(low);
    hide Hex, Unhex;
    assert (['%', Hex(high), Hex(low)] + rest)[3..] == rest;
  }

  lemma DecodePlain(c: char, rest: string)
    requires c != '%'
    ensures Decode([c] + rest) == [c] + Decode(rest)
  {
    assert ([c] + rest)[1..] == rest;
  }

  lemma DecodeByte(c: char, rest: string)
    requires c as nat < 256
    ensures Decode(EncodeByte(c) + rest) == [c] + Decode(rest)
  {
    if IsIdByte(c) {
      DecodePlain(c, rest);
    } else {
      var high, low := c as nat / 16, c as nat % 16;
      assert high % 16 == high && high * 16 + low == c as nat;
      DecodeEscaped(high, low, rest);
    }
    hide Decode, Hex;
  }

  /** Escaping loses nothing. */
  lemma {:induction false} DecodeEncode(s: string)
    requires IsBytes(s)
    ensures Decode(Encode(s)) == s
  {
    if s != "" {
      assert s[0] in s && forall c | c in s[1..] :: c in s;
      DecodeEncode(s[1..]);
      DecodeByte(s[0], Encode(s[1..]));
      assert s == [s[0]] + s[1..];
    }
  }

  lemma {:induction false} EncodeHasNoColon(s: string)
    ensures ':' !in Encode(s)
    ensures s != "" ==> Encode(s) != ""
  {
    if s != "" {
      EncodeHasNoColon(s[1..]);
      assert ':' !in EncodeByte(s[0]);
    }
  }

  lemma {:induction false} EncodeConcat(a: string, b: string)
    ensures Encode(a + b) == Encode(a) + Encode(b)
  {
    if a == "" {
      assert a + b == b;
    } else {
      assert (a + b)[1..] == a[1..] + b;
      EncodeConcat(a[1..], b);
    }
  }

  lemma EncodeSnoc(s: string, i: nat)
    requires i < |s|
    ensures Encode(s[..i + 1]) == Encode(s[..i]) + EncodeByte(s[i])
  {
    EncodeConcat(s[..i], [s[i]]);
    assert s[..i + 1] == s[..i] + [s[i]];
    assert Encode([s[i]]) == EncodeByte(s[i]) + Encode([]);
    hide Encode, EncodeByte;
  }

  lemma EncodeNothing(s: string)
    ensures Encode(s[..0]) == ""
  {
  }

  /** encodeIDSegment: the byte loop, whose output a reader can undo. */
  method EncodeIdSegment(segment: string) returns (out: string)
    ensures out == Encode(segment)
    ensures IsBytes(segment) ==> Decode(out) == segment
    ensures ':' !in out
  {
    out := "";
    hide Encode, Decode, Hex;
    EncodeNothing(segment);
    for i := 0 to |segment|
      invariant out == Encode(segment[..i])
    {
      EncodeSnoc(segment, i);
      if IsIdByte(segment[i]) {
        out := out + [segment[i]];
      } else {
        out := out + ['%'] + [Hex(segment[i] as nat / 16 % 16)] + [Hex(segment[i] as nat % 16)];
      }
    }
    assert segment[..|segment|] == segment;
    EncodeHasNoColon(segment);
    if IsBytes(segment) { DecodeEncode(segment); }
  }

  function Lower(s: string): string
  {
    seq(|s|, i requires 0 <= i < |s| => if 'A' <= s[i] <= 'Z' then (s[i] as nat + 32) as char else s[i])
  }

  lemma LowerExact(s: string, i: nat)
    requires i < |s|
    ensures |Lower(s)| == |s|
    ensures Lower(s)[i] as nat == if 65 <= s[i] as nat <= 90 then s[i] as nat + 32 else s[i] as nat
  {
  }

  /** isCanonicalScope */
  predicate IsCanonicalScope(scope: string)
  {
    scope == "system" || (|scope| > 5 && scope[..5] == "user@" && forall c | c in scope[5..] :: '0' <= c <= '9')
  }

  function Join(a: string, b: string, c: string): string { a + ":" + b + ":" + c }

  /** NewNodeID */
  function NewNodeID(typeName: string, scope: string, identity: string): Option<string>
  {
    var t, s, i := Lower(Text.TrimSpace(typeName)), Text.TrimSpace(scope), Text.TrimSpace(identity);
    if t == "" || s == "" || i == "" || !IsCanonicalScope(s) then None
    else Some(Join(Encode(t), Encode(s), Encode(i)))
  }

  /** The position of the first colon. */
  function Cut(s: string): nat
  {
    if s == "" || s[0] == ':' then 0 else 1 + Cut(s[1..])
  }

  lemma {:induction false} CutAfter(a: string, x: string)
    requires ':' !in a
    ensures Cut(a + ":" + x) == |a|
  {
    if a != "" {
      assert (a + ":" + x)[1..] == a[1..] + ":" + x;
      CutAfter(a[1..], x);
    }
  }

  /** Cutting at the first colon is unambiguous. */
  lemma FirstColon(a: string, x: string, b: string, y: string)
    requires ':' !in a && ':' !in b && a + ":" + x == b + ":" + y
    ensures a == b && x == y
  {
    CutAfter(a, x);
    CutAfter(b, y);
    var l, r := a + ":" + x, b + ":" + y;
    assert a == l[..|a|] && b == r[..|b|] && x == l[|a| + 1..] && y == r[|b| + 1..];
  }

  /** Two components share an ID only if they agree on type, scope and identity. */
  lemma NodeIdInjective(t1: string, s1: string, i1: string, t2: string, s2: string, i2: string)
    requires IsBytes(Lower(Text.TrimSpace(t1))) && IsBytes(Text.TrimSpace(s1)) && IsBytes(Text.TrimSpace(i1))
    requires IsBytes(Lower(Text.TrimSpace(t2))) && IsBytes(Text.TrimSpace(s2)) && IsBytes(Text.TrimSpace(i2))
    requires NewNodeID(t1, s1, i1).Some? && NewNodeID(t1, s1, i1) == NewNodeID(t2, s2, i2)
    ensures Lower(Text.TrimSpace(t1)) == Lower(Text.TrimSpace(t2))
    ensures Text.TrimSpace(s1) == Text.TrimSpace(s2) && Text.TrimSpace(i1) == Text.TrimSpace(i2)
  {
    var a, b, c := Lower(Text.TrimSpace(t1)), Text.TrimSpace(s1), Text.TrimSpace(i1);
    var d, e, f := Lower(Text.TrimSpace(t2)), Text.TrimSpace(s2), Text.TrimSpace(i2);
    hide Encode, Decode, Lower, Text.TrimSpace, IsCanonicalScope;
    EncodeHasNoColon(a); EncodeHasNoColon(b); EncodeHasNoColon(d); EncodeHasNoColon(e);
    assert Encode(a) + ":" + Encode(b) + ":" + Encode(c) == Encode(a) + ":" + (Encode(b) + ":" + Encode(c));
    assert Encode(d) + ":" + Encode(e) + ":" + Encode(f) == Encode(d) + ":" + (Encode(e) + ":" + Encode(f));
    FirstColon(Encode(a), Encode(b) + ":" + Encode(c), Encode(d), Encode(e) + ":" + Encode(f));
    FirstColon(Encode(b), Encode(c), Encode(e), Encode(f));
    DecodeEncode(a); DecodeEncode(b); DecodeEncode(c);
    DecodeEncode(d); DecodeEncode(e); DecodeEncode(f);
  }

  predicate IdChar(c: char)
  {
    || 65 <= c as nat <= 90 || 97 <= c as nat <= 122 || 48 <= c as nat <= 57
    || c == '.' || c == '_' || c == '@' || c == '-'
  }

  /** A segment is kept as it is exactly if it consists of letters, digits, dots, underscores, at signs
      and hyphens; otherwise it gets longer. */
  lemma {:induction false} SegmentUnchanged(s: string)
    ensures |Encode(s)| >= |s|
    ensures Encode(s) == s <==> forall i | 0 <= i < |s| :: IdChar(s[i])
  {
    if s != "" {
      SegmentUnchanged(s[1..]);
      assert s == [s[0]] + s[1..];
      assert IsIdByte(s[0]) <==> IdChar(s[0]);
      hide Hex, Encode;
      EncodeParts(s);
      hide IsIdByte, IdChar;
      if IsIdByte(s[0]) {
        assert Encode(s) == s <==> Encode(s[1..]) == s[1..] by {
          assert Encode(s)[1..] == Encode(s[1..]);
        }
        assert forall i | 0 <= i < |s| - 1 :: s[1..][i] == s[i + 1];
      }
    }
  }

  lemma EncodeParts(s: string)
    requires s != ""
    ensures Encode(s) == EncodeByte(s[0]) + Encode(s[1..])
  {
  }

  /** A node ID is made exactly for a type, an identity and a scope that is the system's or a user's. */
  lemma NodeIdExactly(t: string, s: string, i: string)
    ensures NewNodeID(t, s, i).Some? <==>
              && Text.TrimSpace(t) != "" && Text.TrimSpace(i) != ""
              && var scope := Text.TrimSpace(s);
                 || scope == "system"
                 || (|scope| > 5 && scope[..5] == "user@" && forall k | 5 <= k < |scope| :: 48 <= scope[k] as nat <= 57)
    ensures NewNodeID(t, s, i).Some? ==>
              NewNodeID(t, s, i).value ==
                Encode(Lower(Text.TrimSpace(t))) + ":" + Encode(Text.TrimSpace(s)) + ":" + Encode(Text.TrimSpace(i))
  {
    hide Text.TrimSpace, Encode;
    var scope := Text.TrimSpace(s);
    if |scope| > 5 {
      assert (forall c | c in scope[5..] :: '0' <= c <= '9') <==>
          forall k | 5 <= k < |scope| :: 48 <= scope[k] as nat <= 57 by {
        if forall c | c in scope[5..] :: '0' <= c <= '9' {
          forall k | 5 <= k < |scope| ensures 48 <= scope[k] as nat <= 57 { assert scope[5..][k - 5] in scope[5..]; }
        }
      }
    }
    assert |Lower(Text.TrimSpace(t))| == |Text.TrimSpace(t)|;
  }
}
