/**
 Magnet links across two crates: built by `copy_magnet` (server/src/cmd.rs), read back by `magnet_hash` and
 `display_name` (crates/gpui/src/add_source.rs). Text is its UTF-8 bytes; section 2.1 of RFC 3986 gives the escapes.
 */
module Magnet {
  import opened Options
  import opened Sequences

  newtype byte = x: int | 0 <= x < 256

  type Bytes = seq<byte>

  /** An ASCII literal as bytes. */
  function Ascii(s: string): Bytes
    requires forall i :: 0 <= i < |s| ==> s[i] < 128 as char
  {
    seq(|s|, i requires 0 <= i < |s| => s[i] as int as byte)
  }

  // --- Escapes ----------------------------------------------------------------

  predicate IsAlphanumeric(b: byte) {
    48 <= b <= 57 || 65 <= b <= 90 || 97 <= b <= 122
  }

  /** The unreserved characters of section 2.3 of RFC 3986: alphanumerics, `-`, `.`, `_`, `~`. */
  predicate IsUnreserved(b: byte) {
    IsAlphanumeric(b) || b == 45 || b == 46 || b == 95 || b == 126
  }

  /** One uppercase hexadecimal digit. */
  function HexDigit(n: byte): byte
    requires n < 16
  {
    if n < 10 then 48 + n else 55 + n
  }

  function HexValue(b: byte): Option<byte> {
    if 48 <= b <= 57 then Some(b - 48)
    else if 65 <= b <= 70 then Some(b - 55)
    else if 97 <= b <= 102 then Some(b - 87)
    else None
  }

  /** `u8::from_str_radix(pair, 16)`: two digits, or a leading plus sign and one. */
  function ParsePair(a: byte, b: byte): Option<byte> {
    if HexValue(b).None? then None
    else if a == 43 then HexValue(b)
    else if HexValue(a).None? then None
    else Some(((HexValue(a).value as int * 16 + HexValue(b).value as int) % 256) as byte)
  }

  function EncodeByte(b: byte): Bytes {
    if IsUnreserved(b) then [b] else [37, HexDigit(b / 16), HexDigit(b % 16)]
  }

  function Encode(s: Bytes): Bytes {
    if s == [] then [] else Encode(s[..|s| - 1]) + EncodeByte(s[|s| - 1])
  }

  /** What decoding makes of the rest of the input. */
  function Decode(s: Bytes): Bytes
    decreases |s|
  {
    if s == [] then []
    else if s[0] == 37 && |s| > 2 && ParsePair(s[1], s[2]).Some? then [ParsePair(s[1], s[2]).value] + Decode(s[3..])
    else if s[0] == 43 then [32] + Decode(s[1..])
    else [s[0]] + Decode(s[1..])
  }

  method PercentEncode(s: Bytes) returns (out: Bytes)
    ensures out == Encode(s)
  {
    out := [];
    var i := 0;
    while i < |s|
      invariant 0 <= i <= |s|
      invariant out == Encode(s[..i])
    {
      assert s[..i + 1][..i] == s[..i];
      if IsUnreserved(s[i]) {
        out := out + [s[i]];
      } else {
        out := out + [37, HexDigit(s[i] / 16), HexDigit(s[i] % 16)];
      }
      i := i + 1;
    }
    assert s[..|s|] == s;
  }

  /** What the loop does at `index`: three bytes for one if an escape starts there, else one for one. */
  lemma DecodeAt(value: Bytes, index: nat)
    requires index < |value|
    ensures var b := value[index];
      var pair := if b == 37 && index + 2 < |value| then ParsePair(value[index + 1], value[index + 2]) else None;
      Decode(value[index..]) ==
        if pair.Some? then [pair.value] + Decode(value[index + 3..])
        else [if b == 43 then 32 else b] + Decode(value[index + 1..])
  {}

  method PercentDecode(value: Bytes) returns (out: Bytes)
    ensures out == Decode(value)
  {
    out := [];
    var index := 0;
    while index < |value|
      invariant 0 <= index <= |value|
      invariant Decode(value) == out + Decode(value[index..])
    {
      DecodeAt(value, index);
      ghost var before, at := out, index;
      if value[index] == 37 && index + 2 < |value| {
        var pair := ParsePair(value[index + 1], value[index + 2]);
        if pair.Some? {
          out := out + [pair.value];
          index := index + 3;
        } else {
          out := out + [value[index]];
          index := index + 1;
        }
      } else if value[index] == 43 {
        out := out + [32];
        index := index + 1;
      } else {
        out := out + [value[index]];
        index := index + 1;
      }
      Associative(before, out[|before|..], Decode(value[index..]));
    }
  }

  // --- Building and reading ---------------------------------------------------

  const PREFIX: Bytes := Ascii("magnet:?xt=urn:btih:")
  const DN_FIELD: Bytes := Ascii("&dn=")
  const NEEDLE: Bytes := Ascii("xt=urn:btih:")

  function CopyMagnet(hash: Bytes, name: Bytes): Bytes {
    PREFIX + hash + if name != [] then DN_FIELD + Encode(name) else []
  }

  method BuildMagnet(hash: Bytes, name: Bytes) returns (uri: Bytes)
    ensures uri == CopyMagnet(hash, name)
  {
    uri := PREFIX + hash;
    if name != [] {
      var encoded := PercentEncode(name);
      Associative(uri, DN_FIELD, encoded);
      uri := uri + DN_FIELD;
      uri := uri + encoded;
    }
  }

  function LowerByte(b: byte): byte {
    if 65 <= b <= 90 then b + 32 else b
  }

  function Lower(s: Bytes): Bytes {
    seq(|s|, i requires 0 <= i < |s| => LowerByte(s[i]))
  }

  predicate OccursAt(s: Bytes, needle: Bytes, at: nat) {
    at + |needle| <= |s| && s[at..at + |needle|] == needle
  }

  /** The first occurrence of `needle` at or after `from`. */
  function FindFrom(s: Bytes, needle: Bytes, from: nat): Option<nat>
    decreases |s| - from
  {
    if from + |needle| > |s| then None
    else if OccursAt(s, needle, from) then Some(from)
    else FindFrom(s, needle, from + 1)
  }

  function TakeAlphanumeric(s: Bytes): Bytes {
    if s == [] || !IsAlphanumeric(s[0]) then [] else [s[0]] + TakeAlphanumeric(s[1..])
  }

  lemma {:induction false} FindInRange(s: Bytes, needle: Bytes, from: nat)
    ensures FindFrom(s, needle, from).Some? ==> from <= FindFrom(s, needle, from).value <= |s| - |needle|
    decreases |s| - from
  {
    if from + |needle| <= |s| && !OccursAt(s, needle, from) { FindInRange(s, needle, from + 1); }
  }

  function MagnetHash(text: Bytes): Option<Bytes> {
    FindInRange(Lower(text), NEEDLE, 0);
    match FindFrom(Lower(text), NEEDLE, 0)
    case None => None
    case Some(at) =>
      var hash := TakeAlphanumeric(text[at + |NEEDLE|..]);
      if hash == [] then None else Some(hash)
  }

  /** The position of the first `b`, or the length. */
  function IndexOf(s: Bytes, b: byte): (i: nat)
    ensures i <= |s| && (i < |s| ==> s[i] == b) && forall j :: 0 <= j < i ==> s[j] != b
  {
    if s == [] || s[0] == b then 0 else 1 + IndexOf(s[1..], b)
  }

  /** The length of the white-space character the bytes begin with, 0 if they begin with none. */
  function SpaceLength(s: Bytes): (n: nat)
    ensures n <= |s|
  {
    if |s| >= 1 && (9 <= s[0] <= 13 || s[0] == 32) then 1
    else if |s| >= 2 && s[0] == 0xC2 && (s[1] == 0x85 || s[1] == 0xA0) then 2
    else if |s| >= 3 && s[0] == 0xE1 && s[1] == 0x9A && s[2] == 0x80 then 3
    else if |s| >= 3 && s[0] == 0xE2 && s[1] == 0x80
            && (0x80 <= s[2] <= 0x8A || s[2] == 0xA8 || s[2] == 0xA9 || s[2] == 0xAF) then 3
    else if |s| >= 3 && s[0] == 0xE2 && s[1] == 0x81 && s[2] == 0x9F then 3
    else if |s| >= 3 && s[0] == 0xE3 && s[1] == 0x80 && s[2] == 0x80 then 3
    else 0
  }

  /** `s.trim().is_empty()`. */
  predicate IsBlank(s: Bytes)
    decreases |s|
  {
    s == [] || (SpaceLength(s) > 0 && IsBlank(s[SpaceLength(s)..]))
  }

  /** The name a single `key=value` field gives, if it is a `dn` with something in it. */
  function FieldName(field: Bytes): Option<Bytes> {
    var eq := IndexOf(field, 61);
    if eq < |field| && field[..eq] == Ascii("dn") && !IsBlank(Decode(field[eq + 1..]))
    then Some(Decode(field[eq + 1..])) else None
  }

  /** The first field of the query that gives a name. */
  function FirstName(query: Bytes): Option<Bytes>
    decreases |query|
  {
    var end := IndexOf(query, 38);
    if FieldName(query[..end]).Some? then FieldName(query[..end])
    else if end < |query| then FirstName(query[end + 1..])
    else None
  }

  /** What follows the first question mark, or all of it. */
  function Query(uri: Bytes): Bytes {
    var question := IndexOf(uri, 63);
    if question < |uri| then uri[question + 1..] else uri
  }

  function DisplayName(uri: Bytes): Option<Bytes> {
    FirstName(Query(uri))
  }

  lemma FieldByField(query: Bytes)
    ensures var end := IndexOf(query, 38);
      FirstName(query) ==
        if FieldName(query[..end]).Some? then FieldName(query[..end])
        else if end < |query| then FirstName(query[end + 1..]) else None
  {}

  method ReadField(field: Bytes) returns (name: Option<Bytes>)
    ensures name == FieldName(field)
  {
    var eq := IndexOf(field, 61);
    if eq < |field| && field[..eq] == Ascii("dn") {
      var decoded := PercentDecode(field[eq + 1..]);
      if !IsBlank(decoded) {
        return Some(decoded);
      }
    }
    return None;
  }

  /** The loop over the fields: those before the present one give no name. */
  method ReadFields(whole: Bytes) returns (name: Option<Bytes>)
    ensures name == FirstName(whole)
  {
    var query, more := whole, true;
    while more
      invariant if more then FirstName(query) == FirstName(whole) else FirstName(whole).None?
      decreases more, |query|
    {
      var end := IndexOf(query, 38);
      FieldByField(query);
      name := ReadField(query[..end]);
      if name.Some? {
        return;
      }
      more := end < |query|;
      query := if more then query[end + 1..] else query;
    }
    return None;
  }

  method ReadDisplayName(uri: Bytes) returns (name: Option<Bytes>)
    ensures name == DisplayName(uri)
  {
    name := ReadFields(Query(uri));
  }

  // --- Decoding inverts encoding ----------------------------------------------

  lemma EncodedByteDecodes(b: byte, rest: Bytes)
    ensures Decode(EncodeByte(b) + rest) == [b] + Decode(rest)
  {
    var s := EncodeByte(b) + rest;
    if IsUnreserved(b) {
      assert s[1..] == rest;
    } else {
      assert s[3..] == rest;
      DigitsParse(b);
    }
  }

  lemma DigitsParse(b: byte)
    ensures ParsePair(HexDigit(b / 16), HexDigit(b % 16)) == Some(b)
  {
    assert b as int == (b / 16) as int * 16 + (b % 16) as int;
  }

  lemma {:induction false} EncodedDecodes(s: Bytes, rest: Bytes)
    ensures Decode(Encode(s) + rest) == s + Decode(rest)
    decreases |s|
  {
    if s == [] {
      assert Encode(s) + rest == rest;
    } else {
      var init, last := s[..|s| - 1], s[|s| - 1];
      EncodedDecodes(init, EncodeByte(last) + rest);
      EncodedByteDecodes(last, rest);
      Associative(Encode(init), EncodeByte(last), rest);
      Associative(init, [last], Decode(rest));
      assert s == init + [last];
    }
  }

  /** Every byte string comes back from its escaped form. */
  lemma DecodeInvertsEncode(s: Bytes)
    ensures Decode(Encode(s)) == s
  {
    EncodedDecodes(s, []);
    assert Encode(s) + [] == Encode(s);
  }

  /** Escaped text consists of unreserved bytes and percent signs only. */
  lemma {:induction false} EncodedIsPlain(s: Bytes, i: nat)
    requires i < |Encode(s)|
    ensures IsUnreserved(Encode(s)[i]) || Encode(s)[i] == 37
  {
    if i < |Encode(s[..|s| - 1])| { EncodedIsPlain(s[..|s| - 1], i); }
  }

  // --- The round trip ---------------------------------------------------------

  lemma IndexIs(s: Bytes, b: byte, i: nat)
    requires i <= |s| && (i < |s| ==> s[i] == b) && forall j :: 0 <= j < i ==> s[j] != b
    ensures IndexOf(s, b) == i
  {}

  lemma {:induction false} TakeStops(hash: Bytes, rest: Bytes)
    requires forall i :: 0 <= i < |hash| ==> IsAlphanumeric(hash[i])
    requires rest == [] || !IsAlphanumeric(rest[0])
    ensures TakeAlphanumeric(hash + rest) == hash
  {
    if hash == [] {
      assert hash + rest == rest;
    } else {
      TakeStops(hash[1..], rest);
      assert (hash + rest)[1..] == hash[1..] + rest;
    }
  }

  lemma {:induction false} FoundAt(s: Bytes, needle: Bytes, from: nat, at: nat)
    requires from <= at && OccursAt(s, needle, at)
    requires forall i :: from <= i < at ==> !OccursAt(s, needle, i)
    ensures FindFrom(s, needle, from) == Some(at)
    decreases at - from
  {
    if from < at { FoundAt(s, needle, from + 1, at); }
  }

  /** What the fixed parts of a magnet look like. */
  lemma FixedParts()
    ensures |PREFIX| == 20 && |NEEDLE| == 12
    ensures PREFIX[8..] == NEEDLE && Lower(NEEDLE) == NEEDLE && NEEDLE[0] == 120
    ensures forall i :: 0 <= i < 8 ==> LowerByte(PREFIX[i]) != 120
    ensures PREFIX[7] == 63 && forall i :: 0 <= i < 7 ==> PREFIX[i] != 63
    ensures NEEDLE[..2] == Ascii("xt") && NEEDLE[2] == 61 && NEEDLE[0] != 61 && NEEDLE[1] != 61
    ensures forall i :: 0 <= i < 12 ==> NEEDLE[i] != 38
    ensures Ascii("xt") != Ascii("dn")
    ensures DN_FIELD == [38] + Ascii("dn=")
  {
    PrefixParts();
    NeedleParts();
    assert Ascii("xt")[0] == 120 && Ascii("dn")[0] == 100;
  }

  lemma PrefixParts()
    ensures |PREFIX| == 20 && PREFIX[8..] == NEEDLE
    ensures forall i :: 0 <= i < 8 ==> LowerByte(PREFIX[i]) != 120
    ensures PREFIX[7] == 63 && forall i :: 0 <= i < 7 ==> PREFIX[i] != 63
  {}

  lemma NeedleParts()
    ensures |NEEDLE| == 12 && Lower(NEEDLE) == NEEDLE && NEEDLE[0] == 120
    ensures NEEDLE[..2] == Ascii("xt") && NEEDLE[2] == 61 && NEEDLE[0] != 61 && NEEDLE[1] != 61
    ensures forall i :: 0 <= i < 12 ==> NEEDLE[i] != 38
  {}

  /** The hash comes back, whatever follows it. */
  lemma HashRoundTrip(hash: Bytes, name: Bytes)
    requires hash != [] && forall i :: 0 <= i < |hash| ==> IsAlphanumeric(hash[i])
    ensures MagnetHash(CopyMagnet(hash, name)) == Some(hash)
  {
    var rest := if name != [] then DN_FIELD + Encode(name) else [];
    Associative(PREFIX, hash, rest);
    DnStops(name);
    HashBehindPrefix(hash + rest);
    TakeStops(hash, rest);
  }

  lemma DnStops(name: Bytes)
    ensures (DN_FIELD + Encode(name))[0] == 38
  {}

  /** The hash of a magnet is what stands behind the prefix, as far as it is alphanumeric. */
  lemma {:induction false} HashBehindPrefix(rest: Bytes)
    ensures MagnetHash(PREFIX + rest) == if TakeAlphanumeric(rest) == [] then None else Some(TakeAlphanumeric(rest))
  {
    PrefixParts();
    NeedleParts();
    NeedleFirstAt(rest);
    assert (PREFIX + rest)[8 + |NEEDLE|..] == rest;
  }

  /** Behind the fixed prefix the first occurrence of the needle is at 8. */
  lemma NeedleFirstAt(rest: Bytes)
    ensures FindFrom(Lower(PREFIX + rest), NEEDLE, 0) == Some(8)
  {
    FixedParts();
    var lower := Lower(PREFIX + rest);
    assert lower[8..20] == Lower(PREFIX[8..]);
    forall i | 0 <= i < 8 ensures !OccursAt(lower, NEEDLE, i) {
      assert lower[i] == LowerByte(PREFIX[i]);
    }
    FoundAt(lower, NEEDLE, 0, 8);
  }

  /** The name comes back exactly if it is not blank; a blank one is not offered at all. */
  lemma {:induction false} NameRoundTrip(hash: Bytes, name: Bytes)
    requires forall i :: 0 <= i < |hash| ==> IsAlphanumeric(hash[i])
    ensures DisplayName(CopyMagnet(hash, name)) == if IsBlank(name) then None else Some(name)
  {
    CopiedParts(hash, name);
    if name == [] {
      HashFieldGivesNoName(hash, []);
    } else {
      NameFieldAfterHash(hash, name);
      NamedField(name);
    }
  }

  lemma {:induction false} NameFieldAfterHash(hash: Bytes, name: Bytes)
    requires forall i :: 0 <= i < |hash| ==> IsAlphanumeric(hash[i])
    ensures FirstName(NEEDLE + hash + (DN_FIELD + Encode(name))) == FirstName(Ascii("dn=") + Encode(name))
  {
    FixedParts();
    var field := Ascii("dn=") + Encode(name);
    Associative([38], Ascii("dn="), Encode(name));
    HashFieldGivesNoName(hash, [38] + field);
    Behind(NEEDLE + hash, 38, field);
  }

  lemma Behind(front: Bytes, b: byte, back: Bytes)
    ensures (front + ([b] + back))[|front| + 1..] == back
  {}

  /** The query of a magnet starts behind the prefix's question mark. */
  lemma {:induction false} QueryBehindPrefix(rest: Bytes)
    ensures DisplayName(PREFIX + rest) == FirstName(NEEDLE + rest)
  {
    FixedParts();
    var uri := PREFIX + rest;
    IndexIs(uri, 63, 7);
    assert uri[8..] == PREFIX[8..] + rest;
  }

  lemma {:induction false} CopiedParts(hash: Bytes, name: Bytes)
    ensures var rest := if name != [] then DN_FIELD + Encode(name) else [];
      DisplayName(CopyMagnet(hash, name)) == FirstName(NEEDLE + hash + rest)
  {
    var rest := if name != [] then DN_FIELD + Encode(name) else [];
    Associative(PREFIX, hash, rest);
    Associative(NEEDLE, hash, rest);
    QueryBehindPrefix(hash + rest);
    assert CopyMagnet(hash, name) == PREFIX + hash + rest;
  }

  /** The `xt` field is passed over on the way to the next one. */
  lemma HashFieldGivesNoName(hash: Bytes, rest: Bytes)
    requires forall i :: 0 <= i < |hash| ==> IsAlphanumeric(hash[i])
    requires rest == [] || rest[0] == 38
    ensures var query := NEEDLE + hash + rest;
      FirstName(query) == if rest == [] then None else FirstName(query[|NEEDLE + hash| + 1..])
  {
    FixedParts();
    var xt := NEEDLE + hash;
    var query := xt + rest;
    forall j | 0 <= j < |xt| ensures query[j] != 38 {
      if j >= 12 { assert query[j] == hash[j - 12]; }
    }
    IndexIs(query, 38, |xt|);
    assert query[..|xt|] == xt;
    IndexIs(xt, 61, 2);
    assert xt[..2] == NEEDLE[..2];
  }

  /** The `dn` field of a copied magnet, read on its own. */
  lemma NamedField(name: Bytes)
    ensures FirstName(Ascii("dn=") + Encode(name)) == if IsBlank(name) then None else Some(name)
  {
    var field := Ascii("dn=") + Encode(name);
    forall j | 0 <= j < |field| ensures field[j] != 38 {
      if j >= 3 { EncodedIsPlain(name, j - 3); }
    }
    IndexIs(field, 38, |field|);
    assert field[..|field|] == field;
    IndexIs(field, 61, 2);
    assert field[..2] == Ascii("dn") && field[3..] == Encode(name);
    DecodeInvertsEncode(name);
  }
}
