/** The environment payload of the activation protocol: a map written with sorted keys
    (internal/dbusactivation/protocol.go). */
module EnvironmentCodec {
  import opened Sorting
  import opened ActivationCodec
  import Text

  type Entry = (Bytes, Bytes)

  datatype SetEnvironment = SetEnvironment(frontend: Byte, values: map<Bytes, Bytes>)

  // ----- the byte order of keys -----

  predicate Less(a: Bytes, b: Bytes) { Text.Less(Chars(a), Chars(b)) }

  lemma CharsInjective(a: Bytes, b: Bytes)
    requires Chars(a) == Chars(b)
    ensures a == b
  {
    forall i | 0 <= i < |a| ensures a[i] == b[i] {
      assert Chars(a)[i] == a[i] as char && Chars(b)[i] == b[i] as char;
    }
  }

  lemma LessIrreflexive(a: Bytes)
    ensures !Less(a, a)
  {
    Text.LessIrreflexive(Chars(a));
  }

  lemma LessTotal(a: Bytes, b: Bytes)
    ensures a == b || Less(a, b) || Less(b, a)
  {
    Text.LessTotal(Chars(a), Chars(b));
    if Chars(a) == Chars(b) { CharsInjective(a, b); }
  }

  lemma LessTransitive(a: Bytes, b: Bytes, c: Bytes)
    requires Less(a, b) && Less(b, c)
    ensures Less(a, c)
  {
    Text.LessTransitive(Chars(a), Chars(b), Chars(c));
  }

  lemma KeysLinear(keys: seq<Bytes>)
    ensures LinearOn(Less, keys)
  {
    hide Less;
    forall a | a in keys ensures !Less(a, a) { LessIrreflexive(a); }
    forall a, b | a in keys && b in keys ensures a == b || Less(a, b) || Less(b, a) { LessTotal(a, b); }
    forall a, b, c | a in keys && b in keys && c in keys && Less(a, b) && Less(b, c)
      ensures Less(a, c) { LessTransitive(a, b, c); }
  }

  // ----- one entry -----

  /** validateEnvironmentEntry */
  predicate EntryOk(e: Entry)
  {
    e.0 != [] && 61 !in e.0 && 0 !in e.0 && 0 !in e.1 && ValidUtf8(e.0) && ValidUtf8(e.1)
  }

  /** What the encoder can write: checked, and with lengths that fit their fields. */
  predicate EntryWritable(e: Entry) { EntryOk(e) && Writable(e.0, 2) && Writable(e.1, 4) }

  /** The decoder's own, tighter limits. */
  predicate WithinLimits(e: Entry) { |e.0| <= 4096 && |e.1| <= 8192 }

  function WriteEntry(e: Entry): Bytes { WriteString(e.0, 2) + WriteString(e.1, 4) }

  function ReadEntry(b: Bytes): Read<Entry>
  {
    match ReadString(b, 2, 4096)
    case Fail => Fail
    case Read(key, rest) =>
      match ReadString(rest, 4, 8192)
      case Fail => Fail
      case Read(value, rest') => if EntryOk((key, value)) then Read((key, value), rest') else Fail
  }

  lemma EntryRoundTrip(e: Entry, rest: Bytes)
    requires EntryWritable(e)
    ensures ReadEntry(WriteEntry(e) + rest) == if WithinLimits(e) then Read(e, rest) else Fail
  {
    hide ReadString, WriteString, EntryOk, Writable;
    var key, value := WriteString(e.0, 2), WriteString(e.1, 4);
    StringRoundTrip(e.0, 2, 4096, value + rest);
    StringRoundTrip(e.1, 4, 8192, rest);
    Associative(key, value, rest);
    assert (e.0, e.1) == e;
  }

  lemma EntryBytesRoundTrip(b: Bytes)
    requires ReadEntry(b).Read?
    ensures var r := ReadEntry(b); EntryWritable(r.value) && WithinLimits(r.value) && b == WriteEntry(r.value) + r.rest
  {
    StringBytesRoundTrip(b, 2, 4096);
    var k := ReadString(b, 2, 4096);
    StringBytesRoundTrip(k.rest, 4, 8192);
    var v := ReadString(k.rest, 4, 8192);
    hide ReadString, WriteString, EntryOk, Writable;
    assert WriteString(k.value, 2) + (WriteString(v.value, 4) + v.rest) ==
        (WriteString(k.value, 2) + WriteString(v.value, 4)) + v.rest;
  }

  // ----- lists of entries -----

  function Serialize(es: seq<Entry>): Bytes
  {
    if es == [] then [] else WriteEntry(es[0]) + Serialize(es[1..])
  }

  /** The decoder's loop: `count` entries from the front. */
  function Parse(b: Bytes, count: nat): Read<seq<Entry>>
    decreases count
  {
    if count == 0 then Read([], b)
    else
      match ReadEntry(b)
      case Fail => Fail
      case Read(e, rest) =>
        match Parse(rest, count - 1)
        case Fail => Fail
        case Read(es, rest') => Read([e] + es, rest')
  }

  ghost predicate AllWritable(es: seq<Entry>) { forall e | e in es :: EntryWritable(e) }

  ghost predicate AllWithin(es: seq<Entry>) { forall e | e in es :: WithinLimits(e) }

  lemma AllCons(e: Entry, es: seq<Entry>)
    ensures AllWritable([e] + es) <==> EntryWritable(e) && AllWritable(es)
    ensures AllWithin([e] + es) <==> WithinLimits(e) && AllWithin(es)
  {
    hide EntryWritable, WithinLimits;
    assert forall x :: x in [e] + es <==> x == e || x in es;
    assert e in [e] + es;
  }

  lemma SerializeCons(e: Entry, es: seq<Entry>)
    ensures Serialize([e] + es) == WriteEntry(e) + Serialize(es)
  {
    hide WriteEntry;
    assert ([e] + es)[1..] == es;
  }

  /** One turn of the decoder's loop on a buffer that starts with a readable entry. */
  lemma ParseCons(b: Bytes, count: nat, e: Entry, rest: Bytes)
    requires ReadEntry(b) == Read(e, rest)
    ensures Parse(b, count + 1) == match Parse(rest, count) case Fail => Fail case Read(es, rest') =>
              Read([e] + es, rest')
  {
    hide ReadEntry;
  }

  lemma ParseFails(b: Bytes, count: nat)
    requires ReadEntry(b) == Fail
    ensures Parse(b, count + 1) == Fail
  {
    hide ReadEntry;
  }

  lemma NothingSerialized(rest: Bytes)
    ensures Serialize([]) + rest == rest && Parse(rest, 0) == Read([], rest) && AllWritable([]) && AllWithin([])
  {
    assert [] + rest == rest;
  }

  /** Parsing what was serialized gives the entries back exactly when they are within the limits. */
  lemma {:induction false} ParseSerialized(es: seq<Entry>, rest: Bytes)
    requires AllWritable(es)
    ensures Parse(Serialize(es) + rest, |es|) == if AllWithin(es) then Read(es, rest) else Fail
  {
    hide *;
    if es == [] {
      NothingSerialized(rest);
    } else {
      var e, tail := es[0], es[1..];
      assert es == [e] + tail;
      AllCons(e, tail);
      SerializeCons(e, tail);
      Associative(WriteEntry(e), Serialize(tail), rest);
      EntryRoundTrip(e, Serialize(tail) + rest);
      ParseSerialized(tail, rest);
      if WithinLimits(e) {
        ParseCons(Serialize(es) + rest, |tail|, e, Serialize(tail) + rest);
      } else {
        ParseFails(Serialize(es) + rest, |tail|);
      }
    }
  }

  /** A successful turn of the decoder's loop, taken apart. */
  lemma ParseParts(b: Bytes, count: nat)
    requires count > 0 && Parse(b, count).Read?
    ensures ReadEntry(b).Read? && Parse(ReadEntry(b).rest, count - 1).Read?
    ensures Parse(b, count).value == [ReadEntry(b).value] + Parse(ReadEntry(b).rest, count - 1).value
    ensures Parse(b, count).rest == Parse(ReadEntry(b).rest, count - 1).rest
  {
    hide ReadEntry;
  }

  lemma {:induction false} ParsedBytes(b: Bytes, count: nat)
    requires Parse(b, count).Read?
    ensures var r := Parse(b, count);
            |r.value| == count && AllWritable(r.value) && AllWithin(r.value) && b == Serialize(r.value) + r.rest
    decreases count
  {
    hide *;
    if count == 0 {
      NothingSerialized(b);
    } else {
      ParseParts(b, count);
      EntryBytesRoundTrip(b);
      var head := ReadEntry(b);
      ParsedBytes(head.rest, count - 1);
      var tail := Parse(head.rest, count - 1);
      AllCons(head.value, tail.value);
      SerializeCons(head.value, tail.value);
      Associative(WriteEntry(head.value), Serialize(tail.value), tail.rest);
    }
  }

  // ----- maps and entry lists -----

  function KeyOf(): Entry -> Bytes { (e: Entry) => e.0 }

  function KeyList(es: seq<Entry>): seq<Bytes> { MapSeq(KeyOf(), es) }

  /** The map built by the decoder, one assignment after another. */
  function MapOf(es: seq<Entry>): map<Bytes, Bytes>
  {
    if es == [] then map[] else MapOf(es[..|es| - 1])[es[|es| - 1].0 := es[|es| - 1].1]
  }

  ghost predicate Ascending(es: seq<Entry>)
  {
    forall i, j | 0 <= i < j < |es| :: Less(es[i].0, es[j].0)
  }

  function Pick(values: map<Bytes, Bytes>): Bytes -> Entry
  {
    (k: Bytes) => (k, if k in values then values[k] else [])
  }

  /** The entries in sorted key order. */
  ghost function EntriesOf(values: map<Bytes, Bytes>): seq<Entry>
  {
    MapSeq(Pick(values), SortBy(Less, Listing(values.Keys)))
  }

  lemma SortedKeys(values: map<Bytes, Bytes>)
    ensures var ks := SortBy(Less, Listing(values.Keys));
            NoDuplicates(ks) && Sorted(Less, ks) && (forall k :: k in ks <==> k in values) && |ks| == |values|
  {
    var ls := Listing(values.Keys);
    KeysLinear(ls);
    LinearIsWeak(Less, ls);
    SortSorts(Less, ls);
    SortPermutes(Less, ls);
    SortNoDuplicates(Less, ls);
    ListingCount(ls, values.Keys);
  }

  lemma {:induction false} ListingCount(xs: seq<Bytes>, s: set<Bytes>)
    requires NoDuplicates(xs) && forall x :: x in xs <==> x in s
    ensures |xs| == |s|
    decreases |xs|
  {
    if xs == [] {
      assert s == {};
    } else {
      var n := |xs| - 1;
      assert xs == xs[..n] + [xs[n]];
      ListingCount(xs[..n], s - {xs[n]});
    }
  }

  /** The encoder writes strictly ascending keys, the map's own values, and nothing else. */
  lemma EntriesFacts(values: map<Bytes, Bytes>)
    ensures var es := EntriesOf(values); Ascending(es) && Reads(values, es)
  {
    var ks, es := SortBy(Less, Listing(values.Keys)), EntriesOf(values);
    SortedKeys(values);
    assert es == MapSeq(Pick(values), ks);
    hide SortBy, Listing, Less, EntriesOf;
    PickedEntries(values, ks);
    PickedAscend(values, ks);
  }

  lemma PickedEntries(values: map<Bytes, Bytes>, ks: seq<Bytes>)
    requires (forall k :: k in ks <==> k in values) && |ks| == |values|
    ensures Reads(values, MapSeq(Pick(values), ks))
  {
    var es := MapSeq(Pick(values), ks);
    assert KeyList(es) == ks;
    forall e | e in es ensures e.0 in values && values[e.0] == e.1 {
      var i :| 0 <= i < |es| && es[i] == e;
      assert ks[i] in ks && e == Pick(values)(ks[i]);
    }
  }

  lemma PickedAscend(values: map<Bytes, Bytes>, ks: seq<Bytes>)
    requires NoDuplicates(ks) && Sorted(Less, ks)
    ensures Ascending(MapSeq(Pick(values), ks))
  {
    var es := MapSeq(Pick(values), ks);
    hide Less;
    forall i, j | 0 <= i < j < |es| ensures Less(es[i].0, es[j].0) {
      assert es[i].0 == ks[i] && es[j].0 == ks[j];
      LessTotal(ks[i], ks[j]);
    }
  }

  ghost predicate DistinctKeys(es: seq<Entry>) { NoDuplicates(KeyList(es)) }

  lemma AscendingDistinct(es: seq<Entry>)
    requires Ascending(es)
    ensures DistinctKeys(es)
  {
    hide Less;
    forall i, j | 0 <= i < j < |es| ensures es[i].0 != es[j].0 {
      assert Less(es[i].0, es[j].0);
      LessIrreflexive(es[i].0);
    }
  }

  lemma KeyListSnoc(init: seq<Entry>, e: Entry)
    ensures KeyList(init + [e]) == KeyList(init) + [e.0]
    ensures DistinctKeys(init + [e]) <==> DistinctKeys(init) && e.0 !in KeyList(init)
  {
    var ks := KeyList(init);
    assert KeyList(init + [e]) == ks + [e.0];
    forall i, j | DistinctKeys(init + [e]) && 0 <= i < j < |ks| ensures ks[i] != ks[j] {
      assert (ks + [e.0])[i] != (ks + [e.0])[j];
    }
    forall i | DistinctKeys(init + [e]) && 0 <= i < |ks| ensures ks[i] != e.0 {
      assert (ks + [e.0])[i] != (ks + [e.0])[|ks|];
    }
  }

  lemma MapOfSnoc(init: seq<Entry>, e: Entry)
    ensures MapOf(init + [e]) == MapOf(init)[e.0 := e.1]
  {
    assert (init + [e])[..|init|] == init;
  }

  /** The map holds the listed keys with their values. */
  ghost predicate Reads(m: map<Bytes, Bytes>, es: seq<Entry>)
  {
    && (forall k :: k in m <==> k in KeyList(es))
    && (forall e | e in es :: e.0 in m && m[e.0] == e.1)
    && |m| == |es|
  }

  lemma ReadsSnoc(m: map<Bytes, Bytes>, init: seq<Entry>, e: Entry)
    requires Reads(m, init) && e.0 !in KeyList(init)
    ensures Reads(m[e.0 := e.1], init + [e])
  {
    KeyListSnoc(init, e);
    KeyMember(init);
    hide KeyList, DistinctKeys;
    var m' := m[e.0 := e.1];
    assert m'.Keys == m.Keys + {e.0};
    forall x | x in init + [e] ensures x.0 in m' && m'[x.0] == x.1 {
      if x in init { assert x.0 != e.0; }
    }
  }

  lemma KeyMember(es: seq<Entry>)
    ensures forall e | e in es :: e.0 in KeyList(es)
    ensures forall k | k in KeyList(es) :: exists e :: e in es && e.0 == k
  {
    forall e | e in es ensures e.0 in KeyList(es) {
      var i :| 0 <= i < |es| && es[i] == e;
      assert KeyList(es)[i] == e.0;
    }
    forall k | k in KeyList(es) ensures exists e :: e in es && e.0 == k {
      var i :| 0 <= i < |es| && KeyList(es)[i] == k;
      assert es[i] in es;
    }
  }

  lemma {:induction false} MapOfFacts(es: seq<Entry>)
    requires DistinctKeys(es)
    ensures Reads(MapOf(es), es)
  {
    if es != [] {
      var n := |es| - 1;
      assert es == es[..n] + [es[n]];
      hide *;
      KeyListSnoc(es[..n], es[n]);
      MapOfFacts(es[..n]);
      MapOfSnoc(es[..n], es[n]);
      ReadsSnoc(MapOf(es[..n]), es[..n], es[n]);
    }
  }

  /** Two maps read from the same entries are the same map. */
  lemma ReadsUnique(m: map<Bytes, Bytes>, m': map<Bytes, Bytes>, es: seq<Entry>)
    requires Reads(m, es) && Reads(m', es)
    ensures m == m'
  {
    KeyMember(es);
    hide KeyList;
    forall k | k in m ensures k in m' && m'[k] == m[k] {
      var e :| e in es && e.0 == k;
    }
  }

  /** The map survives being written as entries. */
  lemma MapSurvives(values: map<Bytes, Bytes>)
    ensures MapOf(EntriesOf(values)) == values
  {
    var es := EntriesOf(values);
    EntriesFacts(values);
    AscendingDistinct(es);
    MapOfFacts(es);
    ReadsUnique(values, MapOf(es), es);
  }

  /** The entry list survives being read into a map exactly when its keys strictly ascend. */
  lemma ListSurvives(es: seq<Entry>)
    requires DistinctKeys(es)
    ensures EntriesOf(MapOf(es)) == es <==> Ascending(es)
  {
    hide *;
    MapOfFacts(es);
    EntriesFacts(MapOf(es));
    if Ascending(es) {
      AscendingUnique(MapOf(es), es, EntriesOf(MapOf(es)));
    }
  }

  /** A map has one ascending list of entries. */
  lemma AscendingUnique(values: map<Bytes, Bytes>, a: seq<Entry>, b: seq<Entry>)
    requires Ascending(a) && Ascending(b) && Reads(values, a) && Reads(values, b)
    ensures a == b
  {
    AscendingSorted(a);
    AscendingSorted(b);
    AscendingDistinct(a);
    AscendingDistinct(b);
    var ka, kb := KeyList(a), KeyList(b);
    assert forall k :: k in ka <==> k in kb;
    SameElementsPermute(ka, kb);
    KeysLinear(ka);
    SortedUnique(Less, ka, kb);
    SameKeysSameEntries(values, a, b);
  }

  lemma SameKeysSameEntries(values: map<Bytes, Bytes>, a: seq<Entry>, b: seq<Entry>)
    requires KeyList(a) == KeyList(b) && Reads(values, a) && Reads(values, b)
    ensures a == b
  {
    forall i | 0 <= i < |a| ensures a[i] == b[i] {
      assert KeyList(a)[i] == a[i].0 && KeyList(b)[i] == b[i].0;
      assert a[i] in a && b[i] in b;
    }
  }

  lemma AscendingSorted(es: seq<Entry>)
    requires Ascending(es)
    ensures Sorted(Less, KeyList(es))
  {
    hide Less;
    var ks := KeyList(es);
    forall i, j | 0 <= i < j < |ks| ensures !Less(ks[j], ks[i]) {
      assert Less(es[i].0, es[j].0);
      if Less(ks[j], ks[i]) { LessTransitive(ks[i], ks[j], ks[i]); LessIrreflexive(ks[i]); }
    }
  }

  // ----- the payload -----

  function Payload(frontend: Byte, es: seq<Entry>): Bytes
  {
    [frontend] + BigEndian(|es|, 2) + Serialize(es)
  }

  /** What EncodeSetEnvironment returns. */
  ghost function EncodeEnvironment(r: SetEnvironment): Result<Bytes>
  {
    var es := EntriesOf(r.values);
    if !ValidFrontend(r.frontend) || |r.values| > 256 || !AllWritable(es) ||
        |Payload(r.frontend, es)| > MaxPayload then Err
    else Ok(Payload(r.frontend, es))
  }

  /** The entries an accepted payload lists, in the order they stand there. */
  ghost function DecodedEntries(b: Bytes): Result<seq<Entry>>
  {
    if |b| < 3 || !ValidFrontend(b[0]) || FromBigEndian(b[1..3]) > 256 then Err
    else
      match Parse(b[3..], FromBigEndian(b[1..3]))
      case Fail => Err
      case Read(es, rest) => if rest != [] || !DistinctKeys(es) then Err else Ok(es)
  }

  /** What DecodeSetEnvironment returns. */
  ghost function DecodeEnvironment(b: Bytes): Result<SetEnvironment>
  {
    match DecodedEntries(b)
    case Err => Err
    case Ok(es) => Ok(SetEnvironment(b[0], MapOf(es)))
  }

  lemma PayloadParts(frontend: Byte, es: seq<Entry>)
    requires |es| <= 256
    ensures var b := Payload(frontend, es);
            |b| >= 3 && b[0] == frontend && FromBigEndian(b[1..3]) == |es| && b[3..] == Serialize(es)
  {
    Widths();
    NumberRoundTrip(|es|, 2);
    hide BigEndian, FromBigEndian, Serialize;
    var b := Payload(frontend, es);
    assert b[1..3] == BigEndian(|es|, 2);
  }

  /** Decoding a written payload gives its entries back exactly when they are within the limits. */
  lemma PayloadDecodes(frontend: Byte, es: seq<Entry>)
    requires ValidFrontend(frontend) && |es| <= 256 && AllWritable(es) && DistinctKeys(es)
    ensures DecodedEntries(Payload(frontend, es)) == if AllWithin(es) then Ok(es) else Err
  {
    PayloadParts(frontend, es);
    ParseSerialized(es, []);
    hide Parse, Serialize, DistinctKeys, AllWritable, AllWithin, FromBigEndian, Payload;
    assert Serialize(es) + [] == Serialize(es);
  }

  lemma EncodedParts(r: SetEnvironment)
    requires EncodeEnvironment(r).Ok?
    ensures var es := EntriesOf(r.values);
            ValidFrontend(r.frontend) && |r.values| <= 256 && AllWritable(es) &&
                EncodeEnvironment(r).value == Payload(r.frontend, es)
  {
    hide EntriesOf, AllWritable, Payload;
  }

  /** Decoding an encoded environment gives it back if and only if every key has at most 4096 and
      every value at most 8192 bytes; otherwise it is refused. */
  lemma EnvironmentRoundTrip(r: SetEnvironment)
    requires EncodeEnvironment(r).Ok?
    ensures DecodeEnvironment(EncodeEnvironment(r).value) ==
              if forall k | k in r.values :: |k| <= 4096 && |r.values[k]| <= 8192 then Ok(r) else Err
  {
    var es := EntriesOf(r.values);
    EncodedParts(r);
    EntriesFacts(r.values);
    AscendingDistinct(es);
    MapSurvives(r.values);
    assert |es| == |r.values|;
    PayloadParts(r.frontend, es);
    PayloadDecodes(r.frontend, es);
    WithinMeans(r.values, es);
    hide EntriesOf, EncodeEnvironment, MapOf, Ascending, DistinctKeys, AllWritable, AllWithin, Payload,
        DecodedEntries, Reads;
  }

  lemma WithinMeans(values: map<Bytes, Bytes>, es: seq<Entry>)
    requires Reads(values, es)
    ensures AllWithin(es) <==> forall k | k in values :: |k| <= 4096 && |values[k]| <= 8192
  {
    if AllWithin(es) {
      forall k | k in values ensures |k| <= 4096 && |values[k]| <= 8192 {
        assert k in KeyList(es);
        var i :| 0 <= i < |es| && KeyList(es)[i] == k;
        assert es[i] in es;
      }
    }
  }

  /** An accepted payload, taken apart. */
  lemma DecodedParts(b: Bytes)
    requires DecodedEntries(b).Ok?
    ensures |b| >= 3 && ValidFrontend(b[0]) && FromBigEndian(b[1..3]) <= 256
    ensures Parse(b[3..], FromBigEndian(b[1..3])) == Read(DecodedEntries(b).value, []) &&
              DistinctKeys(DecodedEntries(b).value)
  {
    hide Parse, FromBigEndian, DistinctKeys;
  }

  lemma DecodedPayload(b: Bytes)
    requires DecodedEntries(b).Ok?
    ensures var es := DecodedEntries(b).value;
            b != [] && b == Payload(b[0], es) && |es| <= 256 && DistinctKeys(es) && AllWritable(es) &&
                AllWithin(es) && ValidFrontend(b[0])
  {
    DecodedParts(b);
    ParsedBytes(b[3..], FromBigEndian(b[1..3]));
    BytesRoundTrip(b[1..3]);
    hide DecodedEntries, Parse, Serialize, FromBigEndian, BigEndian, DistinctKeys, AllWritable, AllWithin;
    var es := DecodedEntries(b).value;
    assert b == [b[0]] + b[1..3] + b[3..];
    assert Serialize(es) + [] == Serialize(es);
  }

  /** Serialized lists of readable entries are equal only if the lists are. */
  lemma SerializeInjective(a: seq<Entry>, b: seq<Entry>)
    requires AllWritable(a) && AllWithin(a) && AllWritable(b) && AllWithin(b) && |a| == |b| &&
              Serialize(a) == Serialize(b)
    ensures a == b
  {
    ParseSerialized(a, []);
    ParseSerialized(b, []);
  }

  /** Encoding a decoded environment restores the bytes if and only if its keys stood in strictly
      ascending order and the payload is within 64 KiB. */
  lemma EnvironmentBytesRoundTrip(b: Bytes)
    requires DecodeEnvironment(b).Ok?
    ensures EncodeEnvironment(DecodeEnvironment(b).value) == Ok(b) <==>
              Ascending(DecodedEntries(b).value) && |b| <= MaxPayload
  {
    var es := DecodedEntries(b).value;
    var values := MapOf(es);
    DecodedPayload(b);
    MapOfFacts(es);
    ListSurvives(es);
    EntriesFacts(values);
    var again := EntriesOf(values);
    SameEntries(es, again);
    if EncodeEnvironment(DecodeEnvironment(b).value) == Ok(b) {
      PayloadParts(b[0], es);
      PayloadParts(b[0], again);
      SerializeInjective(again, es);
    }
  }

  /** The sorted entries are the same entries. */
  lemma SameEntries(es: seq<Entry>, again: seq<Entry>)
    requires DistinctKeys(es) && AllWritable(es) && AllWithin(es)
    requires forall e | e in again :: e.0 in MapOf(es) && e.1 == MapOf(es)[e.0]
    ensures AllWritable(again) && AllWithin(again)
  {
    MapOfFacts(es);
    hide EntryWritable, WithinLimits, MapOf;
    forall e | e in again ensures EntryWritable(e) && WithinLimits(e) {
      assert e.0 in KeyList(es);
      var i :| 0 <= i < |es| && KeyList(es)[i] == e.0;
      assert es[i] in es && e == es[i];
    }
  }

  /** For the payload of an accepted packet, which never exceeds 64 KiB, encoding what was decoded
      restores the bytes if and only if the keys stood in strictly ascending order. */
  lemma PacketEnvironmentRoundTrip(b: Bytes)
    requires DecodePacket(b).Ok? && DecodeEnvironment(DecodePacket(b).value.payload).Ok?
    ensures var payload := DecodePacket(b).value.payload;
            EncodeEnvironment(DecodeEnvironment(payload).value) == Ok(payload) <==>
                Ascending(DecodedEntries(payload).value)
  {
    PacketBytesRoundTrip(b);
    EnvironmentBytesRoundTrip(DecodePacket(b).value.payload);
    hide DecodePacket, DecodeEnvironment, DecodedEntries, Ascending;
  }

  // ----- a payload over 64 KiB -----

  function LargeValue(): Bytes { seq(8192, i => 65) }

  /** Nine variables A to I, each with the longest value the decoder takes. */
  function LargeEntries(): (es: seq<Entry>)
    ensures |es| == 9
  {
    seq(9, i requires 0 <= i < 9 => (LargeKey(i), LargeValue()))
  }

  function LargeKey(i: nat): Bytes requires i < 9 { [65 + i] }

  lemma AsciiIsUtf8(s: Bytes)
    requires forall i | 0 <= i < |s| :: s[i] < 0x80
    ensures ValidUtf8(s)
  {
    Text.AsciiIsUtf8(Chars(s));
  }

  lemma LargeEntry(i: nat)
    requires i < 9
    ensures EntryWritable(LargeEntries()[i]) && WithinLimits(LargeEntries()[i]) &&
              |WriteEntry(LargeEntries()[i])| == 8199
  {
    assert LargeEntries()[i] == (LargeKey(i), LargeValue());
    LargeParts(i);
    hide LargeEntries, LargeKey, LargeValue, EntryOk, Writable, BigEndian;
  }

  lemma LargeParts(i: nat)
    requires i < 9
    ensures |LargeKey(i)| == 1 && |LargeValue()| == 8192 && EntryOk((LargeKey(i), LargeValue()))
    ensures Writable(LargeKey(i), 2) && Writable(LargeValue(), 4)
  {
    AsciiIsUtf8(LargeKey(i));
    AsciiIsUtf8(LargeValue());
    Widths();
    hide ValidUtf8, Pow256;
  }

  lemma {:induction false} SerializedLength(es: seq<Entry>, n: nat)
    requires forall i | 0 <= i < |es| :: |WriteEntry(es[i])| == n
    ensures |Serialize(es)| == |es| * n
  {
    hide WriteEntry;
    if es != [] {
      SerializedLength(es[1..], n);
    }
  }

  /** Ascending keys alone do not restore the bytes: the decoder takes payloads that the encoder refuses. */
  lemma LargePayloadLost()
    ensures var b := Payload(1, LargeEntries());
            DecodeEnvironment(b).Ok? && Ascending(DecodedEntries(b).value) &&
                EncodeEnvironment(DecodeEnvironment(b).value) == Err
  {
    hide *;
    var es := LargeEntries();
    var b := Payload(1, es);
    LargeAscending();
    LargeWritable();
    AscendingDistinct(es);
    PayloadParts(1, es);
    PayloadDecodes(1, es);
    LargeRefused(b, es);
  }

  lemma LargeAscending()
    ensures Ascending(LargeEntries())
  {
    var es := LargeEntries();
    forall i, j | 0 <= i < j < |es| ensures Less(es[i].0, es[j].0) {
      assert es[i].0 == LargeKey(i) && es[j].0 == LargeKey(j);
    }
  }

  lemma LargeWritable()
    ensures var es := LargeEntries();
            |es| == 9 && ValidFrontend(1) && AllWritable(es) && AllWithin(es) && |Payload(1, es)| > MaxPayload
  {
    var es := LargeEntries();
    hide Serialize, EntryWritable, WithinLimits, WriteEntry, LargeEntries, LargeValue;
    forall i | 0 <= i < 9
      ensures EntryWritable(es[i]) && WithinLimits(es[i]) && |WriteEntry(es[i])| == 8199
    {
      LargeEntry(i);
    }
    SerializedLength(es, 8199);
  }

  lemma LargeRefused(b: Bytes, es: seq<Entry>)
    requires DecodedEntries(b) == Ok(es) && b != [] && b == Payload(b[0], es) && |b| > MaxPayload && Ascending(es) &&
              DistinctKeys(es)
    ensures DecodeEnvironment(b).Ok? && EncodeEnvironment(DecodeEnvironment(b).value) == Err
  {
    hide DecodedEntries, Payload, MapOf, EntriesOf, Ascending, DistinctKeys;
    ListSurvives(es);
  }

  // ----- the encoder's loops -----

  /** The keys of the map in whatever order the iteration takes. */
  method CollectKeys(values: map<Bytes, Bytes>) returns (keys: seq<Bytes>)
    ensures NoDuplicates(keys) && forall k :: k in keys <==> k in values
  {
    keys := [];
    var left := values.Keys;
    while left != {}
      invariant left <= values.Keys
      invariant NoDuplicates(keys) && forall k :: k in keys <==> k in values && k !in left
      decreases |left|
    {
      var key :| key in left;
      keys := keys + [key];
      left := left - {key};
    }
  }

  /** Sorting removes the iteration order. */
  lemma OrderForgotten(values: map<Bytes, Bytes>, keys: seq<Bytes>)
    requires NoDuplicates(keys) && forall k :: k in keys <==> k in values
    ensures SortBy(Less, keys) == SortBy(Less, Listing(values.Keys))
  {
    SameElementsPermute(keys, Listing(values.Keys));
    KeysLinear(keys);
    SortCanonical(Less, keys, Listing(values.Keys));
  }

  lemma EntryAt(values: map<Bytes, Bytes>, keys: seq<Bytes>)
    requires keys == SortBy(Less, Listing(values.Keys))
    ensures var es := EntriesOf(values);
            |es| == |keys| && forall i | 0 <= i < |keys| :: keys[i] in values && es[i] == (keys[i], values[keys[i]])
  {
    SortedKeys(values);
    hide SortBy, Listing;
    forall i | 0 <= i < |keys| ensures keys[i] in values { assert keys[i] in keys; }
  }

  lemma {:induction false} SerializeSnoc(es: seq<Entry>, e: Entry)
    ensures Serialize(es + [e]) == Serialize(es) + WriteEntry(e)
  {
    hide *;
    if es == [] {
      assert [] + [e] == [e] + [];
      SerializeCons(e, []);
      NothingSerialized([]);
      assert Serialize([]) == Serialize([]) + [] == [];
    } else {
      assert es == [es[0]] + es[1..];
      Associative([es[0]], es[1..], [e]);
      SerializeCons(es[0], es[1..] + [e]);
      SerializeCons(es[0], es[1..]);
      SerializeSnoc(es[1..], e);
      Associative(WriteEntry(es[0]), Serialize(es[1..]), WriteEntry(e));
    }
  }

  lemma PrefixStep(es: seq<Entry>, i: nat, start: Bytes)
    requires i < |es|
    ensures start + Serialize(es[..i]) + WriteEntry(es[i]) == start + Serialize(es[..i + 1])
    ensures AllWritable(es[..i + 1]) <==> AllWritable(es[..i]) && EntryWritable(es[i])
    ensures AllWritable(es) ==> EntryWritable(es[i])
  {
    assert es[..i + 1] == es[..i] + [es[i]];
    assert es[i] in es && es[i] in es[..i + 1];
    hide Serialize, WriteEntry, EntryWritable;
    SerializeSnoc(es[..i], es[i]);
    Associative(start, Serialize(es[..i]), WriteEntry(es[i]));
  }

  /** The encoder's second loop: every entry appended to the buffer, or an error at the first bad one. */
  method WriteEntries(values: map<Bytes, Bytes>, keys: seq<Bytes>, start: Bytes) returns (out: Result<Bytes>)
    requires keys == SortBy(Less, Listing(values.Keys))
    ensures out == if AllWritable(EntriesOf(values)) then Ok(start + Serialize(EntriesOf(values))) else Err
  {
    ghost var es := EntriesOf(values);
    EntryAt(values, keys);
    NothingSerialized([]);
    var buffer := start;
    assert es[..0] == [] && Serialize([]) == [] && start == start + [];
    hide *;
    for i := 0 to |keys|
      invariant AllWritable(es[..i]) && buffer == start + Serialize(es[..i])
    {
      var key := keys[i];
      var value := values[key];
      PrefixStep(es, i, start);
      EntryMeaning(key, value);
      Associative(buffer, WriteString(key, 2), WriteString(value, 4));
      if !EntryOk((key, value)) || !Writable(key, 2) || !Writable(value, 4) {
        return Err;
      }
      buffer := buffer + WriteString(key, 2) + WriteString(value, 4);
    }
    assert es[..|keys|] == es;
    return Ok(buffer);
  }

  lemma EntryMeaning(key: Bytes, value: Bytes)
    ensures EntryWritable((key, value)) <==> EntryOk((key, value)) && Writable(key, 2) && Writable(value, 4)
    ensures WriteEntry((key, value)) == WriteString(key, 2) + WriteString(value, 4)
  {
  }

  /** EncodeSetEnvironment: the result does not depend on the order in which the map was iterated. */
  method EncodeSetEnvironment(r: SetEnvironment) returns (out: Result<Bytes>)
    ensures out == EncodeEnvironment(r)
  {
    if !ValidFrontend(r.frontend) || |r.values| > 256 {
      return Err;
    }
    var keys := CollectKeys(r.values);
    OrderForgotten(r.values, keys);
    keys := SortBy(Less, keys);
    EntryAt(r.values, keys);
    EntriesFacts(r.values);
    hide SortBy, Listing, EntriesOf, Serialize, AllWritable;
    out := WriteEntries(r.values, keys, [r.frontend] + BigEndian(|keys|, 2));
    if out.Ok? && |out.value| > MaxPayload {
      return Err;
    }
  }

  // ----- the decoder's loop -----

  /** Reading one more entry after those already read. */
  lemma {:induction false} ParseSnoc(b: Bytes, i: nat)
    requires Parse(b, i).Read?
    ensures Parse(b, i + 1) ==
              match ReadEntry(Parse(b, i).rest)
              case Fail => Fail
              case Read(e, rest) => Read(Parse(b, i).value + [e], rest)
    decreases i
  {
    hide *;
    if i == 0 {
      NothingSerialized(b);
      ParseOne(b);
    } else {
      ParseParts(b, i);
      var head := ReadEntry(b);
      ParseSnoc(head.rest, i - 1);
      ParseCons(b, i, head.value, head.rest);
      match ReadEntry(Parse(b, i).rest)
      case Fail =>
      case Read(e, rest) => Associative([head.value], Parse(head.rest, i - 1).value, [e]);
    }
  }

  lemma ParseOne(b: Bytes)
    ensures Parse(b, 1) == match ReadEntry(b) case Fail => Fail case Read(e, rest) => Read([] + [e], rest)
  {
    hide ReadEntry;
    if ReadEntry(b).Read? {
      ParseCons(b, 0, ReadEntry(b).value, ReadEntry(b).rest);
      assert [ReadEntry(b).value] + [] == [] + [ReadEntry(b).value];
    }
  }

  /** A failure, or a key read twice, is not undone by reading on. */
  lemma {:induction false} ParseStops(b: Bytes, i: nat, n: nat)
    requires i <= n
    requires Parse(b, i).Fail? || !DistinctKeys(Parse(b, i).value)
    ensures Parse(b, n).Fail? || !DistinctKeys(Parse(b, n).value)
    decreases n
  {
    hide *;
    if i < n {
      ParseStops(b, i, n - 1);
      if Parse(b, n - 1).Read? {
        ParseSnoc(b, n - 1);
        if Parse(b, n).Read? {
          KeyListSnoc(Parse(b, n - 1).value, ReadEntry(Parse(b, n - 1).rest).value);
        }
      } else {
        FailureStays(b, n - 1);
      }
    }
  }

  lemma {:induction false} FailureStays(b: Bytes, i: nat)
    requires Parse(b, i).Fail?
    ensures Parse(b, i + 1).Fail?
    decreases i
  {
    hide ReadEntry;
    if i > 0 && ReadEntry(b).Read? {
      FailureStays(ReadEntry(b).rest, i - 1);
    }
  }

  /** The decoder's state after i turns. */
  ghost predicate ReadSoFar(b: Bytes, i: nat, rest: Bytes, values: map<Bytes, Bytes>)
  {
    var p := Parse(b, i);
    p.Read? && p.rest == rest && DistinctKeys(p.value) && values == MapOf(p.value)
  }

  /** What the loop has to end with. */
  ghost predicate ReadsTo(b: Bytes, n: nat, out: Read<map<Bytes, Bytes>>)
  {
    var p := Parse(b, n);
    out == if p.Fail? || !DistinctKeys(p.value) then Fail else Read(MapOf(p.value), p.rest)
  }

  lemma TurnFails(b: Bytes, i: nat, n: nat, rest: Bytes, values: map<Bytes, Bytes>)
    requires i < n && ReadSoFar(b, i, rest, values)
    requires ReadEntry(rest).Fail? || ReadEntry(rest).value.0 in values
    ensures ReadsTo(b, n, Fail)
  {
    hide ReadEntry, DistinctKeys, MapOf, Parse;
    var done := Parse(b, i).value;
    MapOfFacts(done);
    ParseSnoc(b, i);
    if ReadEntry(rest).Read? {
      KeyListSnoc(done, ReadEntry(rest).value);
    }
    ParseStops(b, i + 1, n);
  }

  lemma TurnReads(b: Bytes, i: nat, rest: Bytes, values: map<Bytes, Bytes>)
    requires ReadSoFar(b, i, rest, values)
    requires ReadEntry(rest).Read? && ReadEntry(rest).value.0 !in values
    ensures var r := ReadEntry(rest); ReadSoFar(b, i + 1, r.rest, values[r.value.0 := r.value.1])
  {
    hide ReadEntry, DistinctKeys, MapOf, Parse;
    var done := Parse(b, i).value;
    MapOfFacts(done);
    ParseSnoc(b, i);
    KeyListSnoc(done, ReadEntry(rest).value);
    MapOfSnoc(done, ReadEntry(rest).value);
  }

  lemma ReadEntryMeaning(rest: Bytes)
    ensures ReadEntry(rest) ==
              var k := ReadString(rest, 2, 4096);
              if k.Fail? then Fail else
              var v := ReadString(k.rest, 4, 8192);
              if v.Fail? || !EntryOk((k.value, v.value)) then Fail else Read((k.value, v.value), v.rest)
  {
    hide ReadString, EntryOk;
  }

  /** The decoder's loop over `count` entries. */
  method ReadEntries(b: Bytes, count: nat) returns (out: Read<map<Bytes, Bytes>>)
    ensures ReadsTo(b, count, out)
  {
    var rest, values := b, map[];
    hide Parse, MapOf, ReadEntry, ReadString, EntryOk, ReadsTo, ReadSoFar;
    NothingRead(b);
    for i := 0 to count
      invariant ReadSoFar(b, i, rest, values)
    {
      ReadEntryMeaning(rest);
      var key := ReadString(rest, 2, 4096);
      if key.Fail? { TurnFails(b, i, count, rest, values); return Fail; }
      var value := ReadString(key.rest, 4, 8192);
      if value.Fail? || !EntryOk((key.value, value.value)) { TurnFails(b, i, count, rest, values); return Fail; }
      if key.value in values { TurnFails(b, i, count, rest, values); return Fail; }
      TurnReads(b, i, rest, values);
      values := values[key.value := value.value];
      rest := value.rest;
    }
    AllRead(b, count, rest, values);
    return Read(values, rest);
  }

  lemma NothingRead(b: Bytes)
    ensures ReadSoFar(b, 0, b, map[])
  {
  }

  lemma AllRead(b: Bytes, n: nat, rest: Bytes, values: map<Bytes, Bytes>)
    requires ReadSoFar(b, n, rest, values)
    ensures ReadsTo(b, n, Read(values, rest))
  {
    hide Parse, MapOf, DistinctKeys;
  }

  /** DecodeSetEnvironment */
  method DecodeSetEnvironment(b: Bytes) returns (out: Result<SetEnvironment>)
    ensures out == DecodeEnvironment(b)
  {
    if |b| < 3 || !ValidFrontend(b[0]) || FromBigEndian(b[1..3]) > 256 {
      return Err;
    }
    hide Parse, MapOf, DistinctKeys, FromBigEndian;
    var read := ReadEntries(b[3..], FromBigEndian(b[1..3]));
    if read.Fail? || read.rest != [] {
      return Err;
    }
    return Ok(SetEnvironment(b[0], read.value));
  }

  // ----- what is accepted, and the bytes -----

  /** An environment variable that may be sent: a name that is not empty and has no equals sign, no zero
      byte in name or value, valid text, and lengths that fit their fields. */
  predicate Sendable(key: Bytes, value: Bytes)
  {
    && key != [] && (forall i | 0 <= i < |key| :: key[i] != 61 && key[i] != 0)
    && (forall i | 0 <= i < |value| :: value[i] != 0)
    && Text.ValidUtf8(Chars(key)) && Text.ValidUtf8(Chars(value)) && |key| <= 65535 && |value| <= 0xFFFF_FFFF
  }

  lemma SendableIsWritable(e: Entry)
    ensures EntryWritable(e) <==> Sendable(e.0, e.1)
  {
    Widths();
    hide Pow256, Text.ValidUtf8;
  }

  /** An environment encodes exactly for the two frontends, at most 256 sendable variables, and a payload
      of at most 64 KiB. */
  lemma EncodesExactly(r: SetEnvironment)
    ensures EncodeEnvironment(r).Ok? <==>
              && (r.frontend == 1 || r.frontend == 2) && |r.values| <= 256
              && (forall k | k in r.values :: Sendable(k, r.values[k]))
              && |Payload(r.frontend, EntriesOf(r.values))| <= 65536
  {
    var es := EntriesOf(r.values);
    EntriesFacts(r.values);
    KeyMember(es);
    assert AllWritable(es) <==> forall k | k in r.values :: Sendable(k, r.values[k]) by {
      hide EntriesOf, EntryWritable, Sendable, KeyList;
      forall e | e in es ensures EntryWritable(e) <==> Sendable(e.0, e.1) { SendableIsWritable(e); }
      if AllWritable(es) {
        forall k | k in r.values ensures Sendable(k, r.values[k]) {
          var e :| e in es && e.0 == k;
        }
      }
    }
    hide EntriesOf, AllWritable, Payload, Sendable;
  }

  /** The payload: the frontend, the number of variables, and for each, in ascending order of names, the
      two-byte length and bytes of the name and the four-byte length and bytes of the value. */
  lemma PayloadLayout(r: SetEnvironment)
    requires EncodeEnvironment(r).Ok?
    ensures var b, es := EncodeEnvironment(r).value, EntriesOf(r.values);
            && b[0] == r.frontend && |b| >= 3 && b[1] as int * 256 + b[2] == |r.values| && b[3..] == Serialize(es)
            && Ascending(es) && Reads(r.values, es)
  {
    var es := EntriesOf(r.values);
    EncodedParts(r);
    EntriesFacts(r.values);
    PayloadParts(r.frontend, es);
    var b := EncodeEnvironment(r).value;
    TwoByteValue(b[1..3]);
    hide EntriesOf, EncodeEnvironment, Serialize, FromBigEndian, Payload, Ascending;
    assert b[1..3][0] == b[1] && b[1..3][1] == b[2];
  }

  lemma EntryLayout(e: Entry)
    requires EntryWritable(e)
    ensures var b, n := WriteEntry(e), |e.0|;
            && |b| == 6 + |e.0| + |e.1| && b[0] as int * 256 + b[1] == n && b[2..2 + n] == e.0
            && ((b[2 + n] as int * 256 + b[3 + n]) * 256 + b[4 + n]) * 256 + b[5 + n] == |e.1| && b[6 + n..] == e.1
  {
    Widths();
    var x, y := BigEndian(|e.0|, 2), BigEndian(|e.1|, 4);
    NumberRoundTrip(|e.0|, 2);
    NumberRoundTrip(|e.1|, 4);
    TwoByteValue(x);
    FourByteValue(y);
    var b, n := WriteEntry(e), |e.0|;
    assert b == (x + e.0) + (y + e.1);
    hide BigEndian, FromBigEndian, WriteEntry, EntryOk, Writable;
    assert b[0] == x[0] && b[1] == x[1] && b[2..2 + n] == e.0;
    assert b[2 + n] == y[0] && b[3 + n] == y[1] && b[4 + n] == y[2] && b[5 + n] == y[3] && b[6 + n..] == e.1;
  }
}
