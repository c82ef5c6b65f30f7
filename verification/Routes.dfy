/**
 Request paths: percent encoding and decoding, route classification, and the dot-segment removal
 a URL parser would apply, over raw bytes.
 */
module Routes {
  import opened Basics

  type Bytes = seq<byte>

  /** `from_utf8_lossy` and the texts it leaves alone. */
  datatype Utf8 = Utf8(valid: Bytes -> bool, lossy: Bytes -> Bytes)

  /** Valid text decodes to itself, and ASCII is valid. */
  ghost predicate Lawful(u: Utf8) {
    && (forall b :: u.valid(b) ==> u.lossy(b) == b)
    && (forall b: Bytes :: (forall i :: 0 <= i < |b| ==> b[i] < 128) ==> u.valid(b))
  }

  const SLASH: byte := 47
  const PERCENT: byte := 37
  const DOT: byte := 46
  const DASH: byte := 45
  const UNDERSCORE: byte := 95
  const TILDE: byte := 126
  const AT: byte := 64

  predicate IsAlphanumeric(b: byte) {
    48 <= b <= 57 || 65 <= b <= 90 || 97 <= b <= 122
  }

  // -- percent encoding ----------------------------------------------------------------------------

  predicate IsKept(b: byte) {
    IsAlphanumeric(b) || b in {DASH, DOT, UNDERSCORE, TILDE, AT}
  }

  /** Upper-case hexadecimal digit of a nibble. */
  function HexDigit(nibble: int): byte
    requires 0 <= nibble < 16
  {
    if nibble < 10 then 48 + nibble else 55 + nibble
  }

  function HexValue(b: byte): Option<int> {
    if 48 <= b <= 57 then Some(b - 48)
    else if 97 <= b <= 102 then Some(b - 87)
    else if 65 <= b <= 70 then Some(b - 55)
    else None
  }

  function EncodeByte(b: byte): Bytes {
    if IsKept(b) then [b] else [PERCENT, HexDigit(b / 16), HexDigit(b % 16)]
  }

  function Encode(name: Bytes): Bytes {
    if name == [] then [] else EncodeByte(name[0]) + Encode(name[1..])
  }

  method EncodePackagePath(name: Bytes) returns (out: Bytes)
    ensures out == Encode(name)
  {
    hide EncodeByte;
    out := [];
    assert name[0..] == name;
    for i := 0 to |name|
      invariant out + Encode(name[i..]) == Encode(name)
    {
      assert name[i..][1..] == name[i + 1..];
      var code := EncodedByte(name[i]);
      out := out + code;
    }
  }

  method EncodedByte(b: byte) returns (code: Bytes)
    ensures code == EncodeByte(b)
  {
    code := [];
    if IsKept(b) {
      code := code + [b];
    } else {
      code := code + [PERCENT];
      code := code + [HexDigit(b / 16)];
      code := code + [HexDigit(b % 16)];
    }
  }

  predicate StartsEscape(s: Bytes) {
    |s| >= 3 && s[0] == PERCENT && HexValue(s[1]).Some? && HexValue(s[2]).Some?
  }

  function EscapedByte(s: Bytes): byte
    requires StartsEscape(s)
  {
    HexValue(s[1]).value * 16 + HexValue(s[2]).value
  }

  /** Escapes replaced by their byte; anything that is not an escape is left as it is. */
  function DecodeBytes(s: Bytes): Bytes {
    if s == [] then []
    else if StartsEscape(s) then [EscapedByte(s)] + DecodeBytes(s[3..])
    else [s[0]] + DecodeBytes(s[1..])
  }

  function PercentDecode(u: Utf8, segment: Bytes): Bytes {
    if PERCENT !in segment then segment else u.lossy(DecodeBytes(segment))
  }

  method PercentDecodeSegment(u: Utf8, segment: Bytes) returns (out: Bytes)
    ensures out == PercentDecode(u, segment)
  {
    if PERCENT !in segment {
      return segment;
    }
    hide StartsEscape, DecodeBytes, EscapedByte, HexValue;
    var bytes: Bytes := [];
    var index := 0;
    assert segment[0..] == segment;
    while index < |segment|
      invariant index <= |segment|
      invariant bytes + DecodeBytes(segment[index..]) == DecodeBytes(segment)
    {
      DecodeGrows(bytes, segment, index);
      var escaped := StartsEscape(segment[index..]);
      var next := if escaped then EscapedByte(segment[index..]) else segment[index];
      index := if escaped then index + 3 else index + 1;
      bytes := bytes + [next];
    }
    DecodeAt(segment, index);
    assert bytes + [] == bytes;
    out := u.lossy(bytes);
  }

  lemma DecodeGrows(bytes: Bytes, s: Bytes, i: nat)
    requires i < |s|
    ensures if StartsEscape(s[i..])
            then i + 3 <= |s| && bytes + [EscapedByte(s[i..])] + DecodeBytes(s[i + 3..]) == bytes + DecodeBytes(s[i..])
            else bytes + [s[i]] + DecodeBytes(s[i + 1..]) == bytes + DecodeBytes(s[i..])
  {
    DecodeAt(s, i);
    hide StartsEscape, DecodeBytes, EscapedByte;
    if StartsEscape(s[i..]) {
      var escaped, rest := [EscapedByte(s[i..])], DecodeBytes(s[i + 3..]);
      assert bytes + (escaped + rest) == bytes + escaped + rest;
    } else {
      assert bytes + ([s[i]] + DecodeBytes(s[i + 1..])) == bytes + [s[i]] + DecodeBytes(s[i + 1..]);
    }
  }

  lemma DecodeAt(s: Bytes, i: nat)
    requires i <= |s|
    ensures i == |s| ==> DecodeBytes(s[i..]) == []
    ensures i < |s| && StartsEscape(s[i..]) ==>
              i + 3 <= |s| && DecodeBytes(s[i..]) == [EscapedByte(s[i..])] + DecodeBytes(s[i + 3..])
    ensures i < |s| && !StartsEscape(s[i..]) ==> DecodeBytes(s[i..]) == [s[i]] + DecodeBytes(s[i + 1..])
  {
    if i < |s| {
      assert s[i..][1..] == s[i + 1..];
      if StartsEscape(s[i..]) {
        assert s[i..][3..] == s[i + 3..];
      }
    }
  }

  lemma HexRoundTrip(b: byte)
    ensures !IsKept(b) ==> StartsEscape(EncodeByte(b))
    ensures HexValue(HexDigit(b / 16)) == Some(b / 16) && HexValue(HexDigit(b % 16)) == Some(b % 16)
    ensures SLASH !in EncodeByte(b)
  {
  }

  lemma DecodeStep(b: byte, rest: Bytes)
    ensures DecodeBytes(EncodeByte(b) + rest) == [b] + DecodeBytes(rest)
    ensures PERCENT !in EncodeByte(b) ==> EncodeByte(b) == [b]
  {
    HexRoundTrip(b);
    var code := EncodeByte(b);
    if IsKept(b) {
      assert (code + rest)[1..] == rest;
    } else {
      assert (code + rest)[3..] == rest;
      assert PERCENT == code[0];
    }
  }

  /** Decoding undoes encoding on every byte string, and no encoded byte is a separator. */
  lemma {:induction false} DecodeEncode(s: Bytes)
    ensures DecodeBytes(Encode(s)) == s
    ensures SLASH !in Encode(s)
    ensures PERCENT !in Encode(s) ==> Encode(s) == s
  {
    if s != [] {
      var code, rest := EncodeByte(s[0]), Encode(s[1..]);
      hide EncodeByte;
      DecodeEncode(s[1..]);
      HexRoundTrip(s[0]);
      DecodeStep(s[0], rest);
      assert [s[0]] + s[1..] == s;
    }
  }

  /** `percent_decode(encode_package_path(s)) == s` for every string. */
  lemma PercentRoundTrip(u: Utf8, s: Bytes)
    requires Lawful(u) && u.valid(s)
    ensures PercentDecode(u, Encode(s)) == s
  {
    DecodeEncode(s);
  }

  lemma {:induction false} DecodeWithoutPercent(s: Bytes)
    requires PERCENT !in s
    ensures DecodeBytes(s) == s && ReadDots(s) == s
  {
    if s != [] {
      DecodeWithoutPercent(s[1..]);
    }
  }

  // -- the characters involved -----------------------------------------------------------------------

  predicate Between(b: byte, low: char, high: char) {
    low as int <= b <= high as int
  }

  predicate AsciiAlphanumeric(b: byte) {
    Between(b, '0', '9') || Between(b, 'A', 'Z') || Between(b, 'a', 'z')
  }

  /** Letters, digits and five marks are written as they are; any other byte becomes an escape of three. */
  lemma EncodesExactly(b: byte)
    ensures EncodeByte(b) == [b] <==>
              AsciiAlphanumeric(b) || b in {'-' as int, '.' as int, '_' as int, '~' as int, '@' as int}
    ensures EncodeByte(b) != [b] ==> |EncodeByte(b)| == 3 && EncodeByte(b)[0] == '%' as int
  {
  }

  const LOWER_DIGITS: string := "0123456789abcdef"
  const UPPER_DIGITS: string := "0123456789ABCDEF"

  /** The value of a hexadecimal digit, in either case. */
  lemma HexValueReads(b: byte, v: int)
    ensures HexValue(b) == Some(v) <==>
              0 <= v < 16 && (b == LOWER_DIGITS[v] as int || b == UPPER_DIGITS[v] as int)
  {
    assert forall i :: 0 <= i < 10 ==> LOWER_DIGITS[i] as int == 48 + i == UPPER_DIGITS[i] as int;
    assert forall i :: 10 <= i < 16 ==> LOWER_DIGITS[i] as int == 87 + i && UPPER_DIGITS[i] as int == 55 + i;
  }

  lemma HexDigitReads(nibble: int)
    requires 0 <= nibble < 16
    ensures HexDigit(nibble) == UPPER_DIGITS[nibble] as int
  {
    assert forall i :: 0 <= i < 10 ==> UPPER_DIGITS[i] as int == 48 + i;
    assert forall i :: 10 <= i < 16 ==> UPPER_DIGITS[i] as int == 55 + i;
  }

  /** A percent sign with two hexadecimal digits, in any case, is the byte they spell. */
  lemma EscapeDecodes(hi: byte, lo: byte, more: Bytes, x: nat, y: nat)
    requires HexValue(hi) == Some(x) && HexValue(lo) == Some(y)
    ensures 0 <= x < 16 && 0 <= y < 16
    ensures DecodeBytes(['%' as int, hi, lo] + more) == [x * 16 + y] + DecodeBytes(more)
  {
    var s := ['%' as int, hi, lo] + more;
    assert s[0] == PERCENT && s[1] == hi && s[2] == lo && s[3..] == more;
  }

  /** Any other byte, and a percent sign without two hexadecimal digits behind it, stands for itself. */
  lemma OthersAreThemselves(first: byte, rest: Bytes)
    requires first != '%' as int || |rest| < 2 || HexValue(rest[0]).None? || HexValue(rest[1]).None?
    ensures DecodeBytes([first] + rest) == [first] + DecodeBytes(rest)
  {
    var s := [first] + rest;
    assert s[0] == first && s[1..] == rest && (|rest| >= 2 ==> s[1] == rest[0] && s[2] == rest[1]);
  }

  // -- classification ------------------------------------------------------------------------------

  lemma SplitUnfold(path: Bytes)
    requires path != []
    ensures var rest := Split(path[1..]);
      Split(path) == if path[0] == SLASH then [[]] + rest else [[path[0]] + rest[0]] + rest[1..]
  {
  }

  /** `str::split('/')`. */
  function Split(path: Bytes): (r: seq<Bytes>)
    ensures |r| > 0
  {
    if path == [] then [[]]
    else
      var rest := Split(path[1..]);
      if path[0] == SLASH then [[]] + rest else [[path[0]] + rest[0]] + rest[1..]
  }

  function NonEmpty(pieces: seq<Bytes>): seq<Bytes> {
    if pieces == [] then []
    else (if pieces[0] == [] then [] else [pieces[0]]) + NonEmpty(pieces[1..])
  }

  function Pieces(path: Bytes): seq<Bytes> {
    NonEmpty(Split(path))
  }

  function Decoded(u: Utf8, pieces: seq<Bytes>): (r: seq<Bytes>)
    ensures |r| == |pieces|
    ensures forall i :: 0 <= i < |pieces| ==> r[i] == PercentDecode(u, pieces[i])
  {
    seq(|pieces|, i requires 0 <= i < |pieces| => PercentDecode(u, pieces[i]))
  }

  datatype Route =
    | Packument(package: Bytes)
    | Version(package: Bytes, spec: Bytes)
    | DistTags(package: Bytes)
    | Passthrough
    | Invalid

  predicate IsDotSegment(segment: Bytes) {
    segment == [DOT] || segment == [DOT, DOT]
  }

  predicate IsPackageSegment(segment: Bytes) {
    segment != [] && segment != [DASH] && segment[0] != DOT && segment[0] != UNDERSCORE
  }

  /** The bytes of an ASCII text. */
  function Ascii(s: string): (r: Bytes)
    ensures |r| == |s| && forall i :: 0 <= i < |s| && s[i] as int < 128 ==> r[i] == s[i] as int
  {
    seq(|s|, i requires 0 <= i < |s| => if s[i] as int < 128 then s[i] as int else 0)
  }

  /** The name the first segments spell and how many of them: two when the scope stands alone, else one. */
  function TakePackage(segments: seq<Bytes>): Option<(Bytes, nat)> {
    if segments == [] || !IsPackageSegment(segments[0]) then None
    else if segments[0][0] == AT && SLASH !in segments[0] then
      if |segments| < 2 then None else Some((segments[0] + [SLASH] + segments[1], 2))
    else Some((segments[0], 1))
  }

  function RouteOf(segments: seq<Bytes>): Route {
    if exists i :: 0 <= i < |segments| && IsDotSegment(segments[i]) then Invalid
    else if |segments| == 4 && segments[0] == [DASH] && segments[1] == Ascii("package")
            && segments[3] == Ascii("dist-tags") && IsPackageSegment(segments[2])
    then DistTags(segments[2])
    else
      var taken := TakePackage(segments);
      if taken.Some? && taken.value.1 == |segments| then Packument(taken.value.0)
      else if taken.Some? && taken.value.1 + 1 == |segments| then Version(taken.value.0, segments[taken.value.1])
      else Passthrough
  }

  function Classify(u: Utf8, path: Bytes): Route {
    RouteOf(Decoded(u, Pieces(path)))
  }

  // -- what each route stands for ------------------------------------------------------------------

  /** A segment that can begin or be a package name: not empty, not a lone dash, no dot or underscore in front. */
  predicate CanName(segment: Bytes) {
    && segment != [] && segment != Ascii("-")
    && segment[0] != '.' as int && segment[0] != '_' as int
  }

  /** The segments spell this package: as one segment, or as a scope and a name. */
  predicate Spells(segments: seq<Bytes>, name: Bytes) {
    || (segments == [name] && CanName(name) && (name[0] == '@' as int ==> '/' as int in name))
    || (|segments| == 2 && CanName(segments[0]) && segments[0][0] == '@' as int && '/' as int !in segments[0]
        && name == segments[0] + Ascii("/") + segments[1])
  }

  predicate HasDots(segments: seq<Bytes>) {
    Ascii(".") in segments || Ascii("..") in segments
  }

  lemma Letters()
    ensures Ascii("-") == [DASH] && Ascii(".") == [DOT] && Ascii("..") == [DOT, DOT] && Ascii("/") == [SLASH]
    ensures '.' as int == DOT && '_' as int == UNDERSCORE && '@' as int == AT && '/' as int == SLASH
  {
    assert Ascii("-")[0] == DASH && Ascii(".")[0] == DOT && Ascii("/")[0] == SLASH;
    assert Ascii("..")[0] == DOT && Ascii("..")[1] == DOT;
  }

  lemma CanNameMeans(segment: Bytes)
    ensures CanName(segment) <==> IsPackageSegment(segment)
  {
    Letters();
    hide Ascii;
  }

  lemma HasDotsMeans(segments: seq<Bytes>)
    ensures HasDots(segments) <==> exists i :: 0 <= i < |segments| && IsDotSegment(segments[i])
  {
    Letters();
    hide Ascii;
    if HasDots(segments) {
      if [DOT] in segments {
        var i :| 0 <= i < |segments| && segments[i] == [DOT];
        assert IsDotSegment(segments[i]);
      } else {
        var i :| 0 <= i < |segments| && segments[i] == [DOT, DOT];
        assert IsDotSegment(segments[i]);
      }
    }
  }

  /** Taking a package takes exactly the beginning that spells one. */
  lemma TakesWhatSpells(segments: seq<Bytes>)
    ensures TakePackage(segments).Some? ==>
              && TakePackage(segments).value.1 <= |segments|
              && Spells(segments[..TakePackage(segments).value.1], TakePackage(segments).value.0)
    ensures forall n: nat, name :: n <= |segments| && Spells(segments[..n], name) ==>
              TakePackage(segments) == Some((name, n))
  {
    Letters();
    if segments != [] {
      CanNameMeans(segments[0]);
    }
    hide Ascii, CanName, IsPackageSegment;
    var taken := TakePackage(segments);
    if taken.Some? && taken.value.1 == 1 {
      assert segments[..1] == [segments[0]];
    } else if taken.Some? {
      assert segments[..2] == [segments[0], segments[1]];
    }
    forall n: nat, name | n <= |segments| && Spells(segments[..n], name)
      ensures taken == Some((name, n))
    {
      assert |segments[..n]| == n && (n > 0 ==> segments[..n][0] == segments[0]);
      assert n == 2 ==> segments[..n][1] == segments[1];
    }
  }

  /** The shape of the registry's own tag listing. */
  predicate ListsTags(segments: seq<Bytes>, name: Bytes) {
    segments == [Ascii("-"), Ascii("package"), name, Ascii("dist-tags")] && CanName(name)
  }

  /**
   Every route, exactly. A path is invalid when a segment is a dot segment. Otherwise it is the tags of
   a package when it has the registry's shape for them, a packument when its segments spell a package,
   and a version when they spell a package and one more follows; and only what is none of these is
   passed through, so nothing that names a package, alone or with a version, gets past the policy.
   */
  lemma RoutesExactly(segments: seq<Bytes>)
    ensures RouteOf(segments) == Invalid <==> HasDots(segments)
    ensures forall name :: RouteOf(segments) == DistTags(name) <==> !HasDots(segments) && ListsTags(segments, name)
    ensures forall name :: RouteOf(segments) == Packument(name) <==> !HasDots(segments) && Spells(segments, name)
    ensures forall name, spec :: RouteOf(segments) == Version(name, spec) <==>
              !HasDots(segments) && VersionOf(segments, name, spec)
    ensures RouteOf(segments) == Passthrough <==>
              && !HasDots(segments)
              && (forall name :: !ListsTags(segments, name))
              && (forall name :: !Spells(segments, name))
              && (forall name, spec :: !VersionOf(segments, name, spec))
  {
    Letters();
    HasDotsMeans(segments);
    if |segments| > 2 {
      CanNameMeans(segments[2]);
    }
    TakesWhatSpells(segments);
    TagsAreNoPackage(segments);
    assert segments[..|segments|] == segments;
    hide Ascii, HasDots, IsDotSegment, CanName, IsPackageSegment, Spells, TakePackage;
    forall name, spec
      ensures VersionOf(segments, name, spec) <==>
                && segments != [] && TakePackage(segments) == Some((name, |segments| - 1))
                && spec == segments[|segments| - 1]
    {
    }
    forall name
      ensures Spells(segments, name) <==> TakePackage(segments) == Some((name, |segments|))
    {
    }
    ListsTagsMeans(segments);
    hide ListsTags, VersionOf;
  }

  lemma ListsTagsMeans(segments: seq<Bytes>)
    ensures forall name :: ListsTags(segments, name) <==>
              && |segments| == 4 && segments[0] == Ascii("-") && segments[1] == Ascii("package")
              && segments[3] == Ascii("dist-tags") && CanName(name) && segments[2] == name
  {
    hide Ascii, CanName;
  }

  lemma TagsAreNoPackage(segments: seq<Bytes>)
    ensures segments != [] && segments[0] == Ascii("-") ==> TakePackage(segments).None?
  {
    Letters();
  }

  predicate VersionOf(segments: seq<Bytes>, name: Bytes, spec: Bytes) {
    segments != [] && Spells(segments[..|segments| - 1], name) && spec == segments[|segments| - 1]
  }

  /** Splitting at any one separator splits the whole. */
  lemma ExtendFirst(x: byte, p: seq<Bytes>, q: seq<Bytes>)
    requires p != []
    ensures [[x] + (p + q)[0]] + (p + q)[1..] == [[x] + p[0]] + p[1..] + q
    ensures [[]] + (p + q) == [[]] + p + q
  {
  }

  lemma {:induction false} SplitAt(a: Bytes, b: Bytes)
    ensures Split(a + [SLASH] + b) == Split(a) + Split(b)
  {
    var path := a + [SLASH] + b;
    if a == [] {
      assert path == [SLASH] + b && path[1..] == b;
    } else {
      SplitUnfold(path);
      SplitUnfold(a);
      hide Split;
      assert path[1..] == a[1..] + [SLASH] + b && path[0] == a[0];
      SplitAt(a[1..], b);
      ExtendFirst(a[0], Split(a[1..]), Split(b));
    }
  }

  lemma {:induction false} SplitNoSlash(a: Bytes)
    requires SLASH !in a
    ensures Split(a) == [a]
  {
    if a != [] {
      SplitNoSlash(a[1..]);
      assert [a[0]] + a[1..] == a;
      assert [[a[0]] + a[1..]] + Split(a[1..])[1..] == [a];
    }
  }

  lemma {:induction false} NonEmptyConcat(a: seq<Bytes>, b: seq<Bytes>)
    ensures NonEmpty(a + b) == NonEmpty(a) + NonEmpty(b)
  {
    if a == [] {
      assert a + b == b;
    } else {
      assert (a + b)[1..] == a[1..] + b;
      NonEmptyConcat(a[1..], b);
    }
  }

  lemma NonEmptySingle(piece: Bytes)
    requires piece != []
    ensures NonEmpty([piece]) == [piece]
  {
    var pieces: seq<Bytes> := [piece];
    assert pieces[1..] == [];
  }

  lemma PiecesAt(a: Bytes, b: Bytes)
    ensures Pieces(a + [SLASH] + b) == Pieces(a) + Pieces(b)
  {
    SplitAt(a, b);
    NonEmptyConcat(Split(a), Split(b));
  }

  lemma PiecesIgnoreSlashes(a: Bytes, b: Bytes)
    ensures Pieces(a + [SLASH] + [SLASH] + b) == Pieces(a + [SLASH] + b)
    ensures Pieces([SLASH] + a) == Pieces(a) == Pieces(a + [SLASH])
  {
    hide Pieces;
    PiecesAt(a + [SLASH], b);
    PiecesAt(a, []);
    PiecesAt(a, b);
    PiecesAt([], a);
    NoPieces();
    assert [] + [SLASH] + a == [SLASH] + a && a + [SLASH] + [] == a + [SLASH];
  }

  lemma NoPieces()
    ensures Pieces([]) == []
  {
  }

  /** Extra slashes never change the route: doubled, leading or trailing. */
  lemma ExtraSlashesDoNotMatter(u: Utf8, a: Bytes, b: Bytes)
    ensures Classify(u, a + [SLASH] + [SLASH] + b) == Classify(u, a + [SLASH] + b)
    ensures Classify(u, [SLASH] + a) == Classify(u, a) == Classify(u, a + [SLASH])
  {
    hide Pieces, Decoded, RouteOf;
    PiecesIgnoreSlashes(a, b);
  }

  // -- names the control socket accepts --------------------------------------------------------------

  predicate IsNamePart(part: Bytes) {
    && part != [] && part[0] !in {DOT, UNDERSCORE, DASH}
    && forall i :: 0 <= i < |part| ==> IsAlphanumeric(part[i]) || part[i] in {DASH, DOT, UNDERSCORE, TILDE}
  }

  const MAX_NAME_BYTES: nat := 214

  function FirstSlash(s: Bytes): (i: nat)
    ensures i <= |s| && SLASH !in s[..i] && (i < |s| ==> s[i] == SLASH)
  {
    if s == [] || s[0] == SLASH then 0
    else
      var i := 1 + FirstSlash(s[1..]);
      assert s[..i] == [s[0]] + s[1..][..i - 1];
      i
  }

  /** `package_name` accepts the value. */
  predicate IsPackageName(value: Bytes) {
    && value != [] && |value| <= MAX_NAME_BYTES
    && if value[0] == AT then
         var slash := FirstSlash(value[1..]);
         && slash < |value| - 1
         && IsNamePart(value[1..][..slash]) && IsNamePart(value[1..][slash + 1..])
       else IsNamePart(value)
  }

  /** A scope or a name: letters, digits and four marks, and none of three marks in front. */
  lemma NamePartReads(part: Bytes)
    ensures IsNamePart(part) <==>
              && part != [] && part[0] !in {'.' as int, '_' as int, '-' as int}
              && forall i :: 0 <= i < |part| ==>
                   AsciiAlphanumeric(part[i]) || part[i] in {'-' as int, '.' as int, '_' as int, '~' as int}
  {
  }

  /** An accepted name is one name part, or two as `@scope/name`, and at most 214 bytes long. */
  lemma PackageNameReads(value: Bytes)
    ensures IsPackageName(value) <==>
              && |value| <= 214
              && (IsNamePart(value)
                  || exists scope, part :: IsNamePart(scope) && IsNamePart(part) && value == AtScope(scope, part))
  {
    if value != [] && value[0] == AT {
      var slash := FirstSlash(value[1..]);
      if IsPackageName(value) {
        assert value == AtScope(value[1..][..slash], value[1..][slash + 1..]);
      }
      forall scope, part | IsNamePart(scope) && IsNamePart(part) && value == AtScope(scope, part)
        ensures slash == |scope| && value[1..][..slash] == scope && value[1..][slash + 1..] == part
      {
        FirstSlashAfter(scope, part);
        assert value[1..] == scope + [SLASH] + part;
      }
      hide IsNamePart;
    }
    StartsWithoutAt(value);
  }

  function AtScope(scope: Bytes, part: Bytes): Bytes {
    ['@' as int] + scope + ['/' as int] + part
  }

  lemma FirstSlashAfter(scope: Bytes, part: Bytes)
    requires SLASH !in scope
    ensures FirstSlash(scope + [SLASH] + part) == |scope|
  {
    var s := scope + [SLASH] + part;
    var i := FirstSlash(s);
    assert s[|scope|] == SLASH && forall k :: 0 <= k < |scope| ==> s[k] == scope[k];
    assert forall k :: 0 <= k < i ==> s[..i][k] == s[k];
  }

  lemma StartsWithoutAt(value: Bytes)
    ensures IsNamePart(value) ==> value != [] && value[0] != AT && SLASH !in value
    ensures forall scope, part :: value == AtScope(scope, part) ==> value != [] && value[0] == AT
  {
  }

  lemma {:induction false} EncodeKept(s: Bytes)
    requires forall i :: 0 <= i < |s| ==> IsKept(s[i])
    ensures Encode(s) == s
  {
    if s != [] {
      EncodeKept(s[1..]);
    }
  }

  lemma NamePartPlain(part: Bytes)
    requires IsNamePart(part)
    ensures SLASH !in part && PERCENT !in part && AT !in part
    ensures Encode(part) == part
    ensures Pieces(part) == [part]
    ensures IsPackageSegment(part) && !IsDotSegment(part)
  {
    EncodeKept(part);
    SplitNoSlash(part);
    NonEmptySingle(part);
  }

  /** One segment that is a whole package name, and a scope with its name as two. */
  lemma PackageRoutes(first: Bytes, second: Bytes)
    requires IsPackageSegment(first) && !IsDotSegment(first)
    ensures first[0] != AT || SLASH in first ==> RouteOf([first]) == Packument(first)
    ensures first[0] == AT && SLASH !in first && !IsDotSegment(second) ==>
              RouteOf([first, second]) == Packument(first + [SLASH] + second)
  {
  }

  lemma ClassifyPieces(u: Utf8, path: Bytes, segments: seq<Bytes>)
    requires Decoded(u, Pieces(path)) == segments
    ensures Classify(u, path) == RouteOf(segments)
    ensures Classify(u, [SLASH] + path) == RouteOf(segments)
  {
    hide RouteOf, Decoded, Pieces;
    PiecesIgnoreSlashes(path, []);
  }

  /** Every accepted name reaches the packument of that name, encoded and literally. */
  lemma AcceptedNamesClassify(u: Utf8, name: Bytes)
    requires Lawful(u) && IsPackageName(name)
    ensures Classify(u, [SLASH] + Encode(name)) == Packument(name)
    ensures Classify(u, [SLASH] + name) == Packument(name)
  {
    hide Classify, Encode, Pieces, IsNamePart, Lawful, RouteOf;
    if name[0] != AT {
      NamePartPlain(name);
      assert Decoded(u, [name]) == [name];
      ClassifyPieces(u, name, [name]);
      PackageRoutes(name, name);
    } else {
      var slash := FirstSlash(name[1..]);
      var scope, part := name[1..][..slash], name[1..][slash + 1..];
      assert name == [AT] + scope + [SLASH] + part;
      ScopedName(u, scope, part);
    }
  }

  lemma ScopedName(u: Utf8, scope: Bytes, part: Bytes)
    requires Lawful(u) && IsNamePart(scope) && IsNamePart(part)
    ensures var name := [AT] + scope + [SLASH] + part;
      Classify(u, [SLASH] + Encode(name)) == Packument(name) == Classify(u, [SLASH] + name)
  {
    hide Classify, Encode, Pieces, RouteOf, Decoded, Lawful;
    var first := [AT] + scope;
    var name := first + [SLASH] + part;
    NamePartPlain(scope);
    NamePartPlain(part);
    PlainPiece(u, first);
    PlainPiece(u, part);
    PiecesAt(first, part);
    DecodedTwo(u, first, part);
    assert [first] + [part] == [first, part];
    ClassifyPieces(u, name, [first, part]);
    PackageRoutes(first, part);

    EncodedPiece(u, name);
    ClassifyPieces(u, Encode(name), [name]);
    assert name[|first|] == SLASH;
    PackageRoutes(name, part);
  }

  lemma PlainPiece(u: Utf8, piece: Bytes)
    requires piece != [] && SLASH !in piece && PERCENT !in piece
    ensures Pieces(piece) == [piece]
    ensures Decoded(u, [piece]) == [piece]
  {
    SplitNoSlash(piece);
    NonEmptySingle(piece);
  }

  lemma DecodedTwo(u: Utf8, a: Bytes, b: Bytes)
    requires PERCENT !in a && PERCENT !in b
    ensures Decoded(u, [a, b]) == [a, b]
  {
  }

  /** An encoded ASCII name is one segment and decodes to the name. */
  lemma EncodedPiece(u: Utf8, name: Bytes)
    requires Lawful(u) && name != [] && forall i :: 0 <= i < |name| ==> name[i] < 128
    ensures Decoded(u, Pieces(Encode(name))) == [name]
  {
    hide PercentDecode, StartsEscape, EncodeByte, IsKept;
    DecodeEncode(name);
    PercentRoundTrip(u, name);
    var encoded := Encode(name);
    assert DecodeBytes([]) == [];
    SplitNoSlash(encoded);
    NonEmptySingle(encoded);
    assert Decoded(u, [encoded]) == [name];
  }

  // -- paths of versions and tags ------------------------------------------------------------------

  function Segments(u: Utf8, path: Bytes): seq<Bytes> {
    Decoded(u, Pieces(path))
  }

  lemma SegmentsAt(u: Utf8, a: Bytes, b: Bytes)
    ensures Segments(u, a + [SLASH] + b) == Segments(u, a) + Segments(u, b)
    ensures Segments(u, [SLASH] + a) == Segments(u, a)
  {
    hide Pieces, PercentDecode;
    PiecesAt(a, b);
    PiecesIgnoreSlashes(a, b);
  }

  /** A plain segment: one that is written as it is, and is no dot segment. */
  predicate Plain(segment: Bytes) {
    segment != [] && SLASH !in segment && PERCENT !in segment && !IsDotSegment(segment)
  }

  /** The segments of an accepted name, encoded and written out. */
  lemma NameSegments(u: Utf8, name: Bytes)
    requires Lawful(u) && IsPackageName(name)
    ensures Segments(u, Encode(name)) == [name]
    ensures Spells([name], name) && !HasDots([name])
    ensures Spells(Segments(u, name), name) && !HasDots(Segments(u, name))
    ensures name[0] != AT ==> Segments(u, name) == [name]
    ensures name[0] == AT ==> |Segments(u, name)| == 2
  {
    hide Encode, IsNamePart, Lawful, Spells, HasDots, Pieces, PercentDecode, Ascii, IsPackageName, Decoded;
    hide RouteOf;
    AcceptedNamesClassify(u, name);
    WrittenSegments(u, name);
    PiecesIgnoreSlashes(name, []);
    PiecesIgnoreSlashes(Encode(name), []);
    RoutesExactly([name]);
    RoutesExactly(Segments(u, name));
  }

  lemma WrittenSegments(u: Utf8, name: Bytes)
    requires Lawful(u) && IsPackageName(name)
    ensures Segments(u, Encode(name)) == [name]
    ensures name[0] != AT ==> Segments(u, name) == [name]
    ensures name[0] == AT ==> |Segments(u, name)| == 2
  {
    hide Encode, IsNamePart, Lawful, Pieces, PercentDecode;
    if name[0] == AT {
      var slash := FirstSlash(name[1..]);
      var first, part := name[..slash + 1], name[1..][slash + 1..];
      assert name == first + [SLASH] + part && first == [AT] + name[1..][..slash];
      AcceptedIsAscii(name);
      EncodedPiece(u, name);
      ScopedSegments(u, name[1..][..slash], part);
    } else {
      NamePartPlain(name);
      PlainPiece(u, name);
    }
  }

  lemma ScopedSegments(u: Utf8, scope: Bytes, part: Bytes)
    requires IsNamePart(scope) && IsNamePart(part)
    ensures |Segments(u, [AT] + scope + [SLASH] + part)| == 2
  {
    hide IsNamePart, Pieces, PercentDecode;
    NamePartPlain(scope);
    NamePartPlain(part);
    PlainPiece(u, [AT] + scope);
    PlainPiece(u, part);
    SegmentsAt(u, [AT] + scope, part);
  }

  lemma AcceptedIsAscii(name: Bytes)
    requires IsPackageName(name)
    ensures forall i :: 0 <= i < |name| ==> name[i] < 128
  {
    if name[0] == AT {
      var slash := FirstSlash(name[1..]);
      assert name == [AT] + name[1..][..slash] + [SLASH] + name[1..][slash + 1..];
    }
  }

  lemma NoDotsIn(segments: seq<Bytes>, more: seq<Bytes>)
    ensures HasDots(segments + more) <==> HasDots(segments) || HasDots(more)
  {
    hide Ascii;
  }

  lemma PlainSegments(u: Utf8, spec: Bytes)
    requires Plain(spec)
    ensures Segments(u, spec) == [spec] && !HasDots([spec])
  {
    hide Pieces, PercentDecode;
    PlainPiece(u, spec);
    HasDotsMeans([spec]);
  }

  /** `/name/spec` is that version of that package, for every accepted name, encoded or written out. */
  lemma AcceptedVersionsClassify(u: Utf8, name: Bytes, spec: Bytes)
    requires Lawful(u) && IsPackageName(name) && Plain(spec)
    ensures Classify(u, [SLASH] + (Encode(name) + [SLASH] + spec)) == Version(name, spec)
    ensures Classify(u, [SLASH] + (name + [SLASH] + spec)) == Version(name, spec)
  {
    hide Segments, Encode, Spells, HasDots, RouteOf, Lawful, IsPackageName, Plain;
    NameSegments(u, name);
    PlainSegments(u, spec);
    VersionAfter(u, Encode(name), name, spec);
    VersionAfter(u, name, name, spec);
  }

  lemma VersionAfter(u: Utf8, path: Bytes, name: Bytes, spec: Bytes)
    requires Spells(Segments(u, path), name) && !HasDots(Segments(u, path))
    requires Segments(u, spec) == [spec] && !HasDots([spec])
    ensures Classify(u, [SLASH] + (path + [SLASH] + spec)) == Version(name, spec)
  {
    var front, all := Segments(u, path), Segments(u, path) + [spec];
    SegmentsAt(u, path, spec);
    SegmentsAt(u, path + [SLASH] + spec, []);
    assert Classify(u, [SLASH] + (path + [SLASH] + spec)) == RouteOf(all);
    hide Segments, Spells, HasDots, RouteOf;
    NoDotsIn(front, [spec]);
    assert all[..|all| - 1] == front;
    assert VersionOf(all, name, spec);
    RoutesExactly(all);
  }

  lemma TagWords(u: Utf8)
    ensures Segments(u, Ascii("-")) == [Ascii("-")] && Segments(u, Ascii("package")) == [Ascii("package")]
    ensures Segments(u, Ascii("dist-tags")) == [Ascii("dist-tags")]
    ensures !HasDots([Ascii("-")]) && !HasDots([Ascii("package")]) && !HasDots([Ascii("dist-tags")])
  {
    hide Segments, Ascii, HasDots;
    PlainWord(u, "-");
    PlainWord(u, "package");
    PlainWord(u, "dist-tags");
  }

  lemma PlainWord(u: Utf8, word: string)
    requires word != "" && word[0] != '.'
    requires forall i :: 0 <= i < |word| ==> word[i] as int < 128 && word[i] !in {'/', '%'}
    ensures Segments(u, Ascii(word)) == [Ascii(word)] && !HasDots([Ascii(word)])
  {
    hide Segments, HasDots;
    assert Ascii(word)[0] == word[0] as int;
    PlainSegments(u, Ascii(word));
  }

  /**
   The registry's tag listing of an accepted name. Encoded, or written out without a scope, it is
   answered by the policy; a scope written out makes one segment too many, and the path is passed on.
   */
  lemma TagListingsClassify(u: Utf8, name: Bytes)
    requires Lawful(u) && IsPackageName(name)
    ensures Classify(u, [SLASH] + TagPath(Encode(name))) == DistTags(name)
    ensures Classify(u, [SLASH] + TagPath(name)) == if name[0] == AT then Passthrough else DistTags(name)
  {
    hide Segments, Encode, Spells, HasDots, RouteOf, Lawful, Ascii, TagPath;
    NameSegments(u, name);
    TagSegments(u, Encode(name));
    TagSegments(u, name);
    var dash, package, tags := Ascii("-"), Ascii("package"), Ascii("dist-tags");
    NamesCan(name);
    assert [dash, package] + [name] + [tags] == [dash, package, name, tags];
    hide CanName;
    RoutesExactly([dash, package] + [name] + [tags]);
    RoutesExactly([dash, package] + Segments(u, name) + [tags]);
    if name[0] == AT {
      FiveAreNothing(Segments(u, name));
    }
  }

  function TagPath(name: Bytes): Bytes {
    Ascii("-") + [SLASH] + Ascii("package") + [SLASH] + name + [SLASH] + Ascii("dist-tags")
  }

  lemma TagSegments(u: Utf8, name: Bytes)
    requires !HasDots(Segments(u, name))
    ensures var all := [Ascii("-"), Ascii("package")] + Segments(u, name) + [Ascii("dist-tags")];
      Classify(u, [SLASH] + TagPath(name)) == RouteOf(all) && !HasDots(all)
  {
    assert Classify(u, [SLASH] + TagPath(name)) == RouteOf(Segments(u, [SLASH] + TagPath(name)));
    hide Segments, RouteOf, HasDots, Ascii, Classify;
    var dash, package, tags := Ascii("-"), Ascii("package"), Ascii("dist-tags");
    TagWords(u);
    SegmentsAt(u, TagPath(name), []);
    SegmentsAt(u, dash + [SLASH] + package + [SLASH] + name, tags);
    SegmentsAt(u, dash + [SLASH] + package, name);
    SegmentsAt(u, dash, package);
    assert [dash] + [package] == [dash, package];
    NoDotsIn([dash], [package]);
    NoDotsIn([dash, package], Segments(u, name));
    NoDotsIn([dash, package] + Segments(u, name), [tags]);
  }

  lemma NamesCan(name: Bytes)
    requires Spells([name], name)
    ensures CanName(name)
  {
    hide Ascii;
  }

  /** Behind `/-/package`, two segments of a written-out scope make no route. */
  lemma FiveAreNothing(name: seq<Bytes>)
    requires |name| == 2
    ensures var all := [Ascii("-"), Ascii("package")] + name + [Ascii("dist-tags")];
      && (forall n :: !ListsTags(all, n)) && (forall n :: !Spells(all, n))
      && (forall n, spec :: !VersionOf(all, n, spec))
  {
    hide Ascii, CanName;
  }

  // -- dot segments ------------------------------------------------------------------------------------

  predicate Begins(s: Bytes, prefix: Bytes) {
    |prefix| <= |s| && s[..|prefix|] == prefix
  }

  /** The output buffer without its last segment and the slash before it. */
  function DropLastSegment(output: Bytes): Bytes {
    if output == [] then []
    else if output[|output| - 1] == SLASH then output[..|output| - 1]
    else DropLastSegment(output[..|output| - 1])
  }

  /** Where the first path segment of the input ends, its leading slash included. */
  function FirstSegmentEnd(input: Bytes): (n: nat)
    requires input != []
    ensures 0 < n <= |input| && (n < |input| ==> input[n] == SLASH)
  {
    1 + FirstSlash(input[1..])
  }

  /** `remove_dot_segments`, section 5.2.4 of RFC 3986, on its input and output buffers. */
  function RemoveDotSegments(input: Bytes, output: Bytes): Bytes
    decreases |input|
  {
    if input == [] then output
    else if Begins(input, [DOT, DOT, SLASH]) then RemoveDotSegments(input[3..], output)
    else if Begins(input, [DOT, SLASH]) then RemoveDotSegments(input[2..], output)
    else if Begins(input, [SLASH, DOT, SLASH]) then RemoveDotSegments(input[2..], output)
    else if input == [SLASH, DOT] then RemoveDotSegments([SLASH], output)
    else if Begins(input, [SLASH, DOT, DOT, SLASH]) then RemoveDotSegments(input[3..], DropLastSegment(output))
    else if input == [SLASH, DOT, DOT] then RemoveDotSegments([SLASH], DropLastSegment(output))
    else if IsDotSegment(input) then output
    else
      var n := FirstSegmentEnd(input);
      RemoveDotSegments(input[n..], output + input[..n])
  }

  /** `%2e` read as a dot, in either case. */
  function ReadDots(s: Bytes): Bytes {
    if s == [] then []
    else if StartsDotEscape(s) then [DOT] + ReadDots(s[3..])
    else [s[0]] + ReadDots(s[1..])
  }

  predicate StartsDotEscape(s: Bytes) {
    |s| >= 3 && s[0] == PERCENT && s[1] == 50 && s[2] in {69, 101}
  }

  lemma DotEscapeReads(s: Bytes)
    ensures StartsDotEscape(s) <==> Begins(s, Ascii("%2e")) || Begins(s, Ascii("%2E"))
  {
    var lower, upper := Ascii("%2e"), Ascii("%2E");
    assert lower == ['%' as int, '2' as int, 'e' as int] && upper == ['%' as int, '2' as int, 'E' as int];
    hide Ascii;
    if |s| >= 3 {
      assert s[..3] == [s[0], s[1], s[2]];
    }
  }

  lemma {:induction false} DropOne(output: Bytes, a: Bytes)
    requires SLASH !in a
    ensures DropLastSegment(output + [SLASH] + a) == output
  {
    var s := output + [SLASH] + a;
    if a == [] {
      assert s[..|s| - 1] == output;
    } else {
      assert s[|s| - 1] == a[|a| - 1] && s[..|s| - 1] == output + [SLASH] + a[..|a| - 1];
      DropOne(output, a[..|a| - 1]);
    }
  }

  /**
   What the removal does to the paths that are refused: `/a/../b` is `/b`, and `/a/./b` is `/a/b`. A
   path with a dot segment means something else to a URL parser than what it is classified by.
   */
  lemma DotSegmentsAreRemoved(a: Bytes, b: Bytes)
    requires Plain(a) && Plain(b)
    ensures RemoveDotSegments([SLASH] + a + [SLASH, DOT, DOT] + ([SLASH] + b), []) == [SLASH] + b
    ensures RemoveDotSegments([SLASH] + a + [SLASH, DOT] + ([SLASH] + b), []) == [SLASH] + a + [SLASH] + b
  {
    hide RemoveDotSegments, DropLastSegment, NoDotSegment, Begins;
    var front, back := [SLASH] + a, [SLASH] + b;
    PlainPath(b);
    DropFirst(a);
    hide Plain;
    Detour(a, [SLASH, DOT, DOT], back);
    StepUp(front, back);
    NothingToRemove(back, []);
    Detour(a, [SLASH, DOT], back);
    StepOver(front, back);
    NothingToRemove(back, front);
    assert [] + back == back;
    assert front + back == [SLASH] + a + [SLASH] + b;
  }

  lemma DropFirst(a: Bytes)
    requires Plain(a)
    ensures DropLastSegment([SLASH] + a) == []
  {
    DropOne([], a);
    assert [] + [SLASH] + a == [SLASH] + a;
  }

  /** A path goes up or stays, after its first segment. */
  lemma Detour(a: Bytes, dots: Bytes, back: Bytes)
    requires Plain(a) && dots != [] && dots[0] == SLASH
    ensures RemoveDotSegments([SLASH] + a + dots + back, []) == RemoveDotSegments(dots + back, [SLASH] + a)
  {
    FirstSegmentGoes(a, dots + back);
    assert [SLASH] + a + dots + back == [SLASH] + a + (dots + back);
  }

  lemma PlainPath(b: Bytes)
    requires Plain(b)
    ensures NoDotSegment([SLASH] + b)
  {
    SplitNoSlash(b);
    SplitUnfold([SLASH] + b);
    assert ([SLASH] + b)[1..] == b;
    hide Split;
    assert [[]] + [b] == [[], b];
  }

  lemma StepUp(output: Bytes, back: Bytes)
    requires back != [] && back[0] == SLASH
    ensures RemoveDotSegments([SLASH, DOT, DOT] + back, output) == RemoveDotSegments(back, DropLastSegment(output))
  {
    var input := [SLASH, DOT, DOT] + back;
    assert input[..4] == [SLASH, DOT, DOT, SLASH] && input[3..] == back;
    hide DropLastSegment;
    assert input[..3] == [SLASH, DOT, DOT] && input[..2] == [SLASH, DOT];
  }

  lemma StepOver(output: Bytes, back: Bytes)
    requires back != [] && back[0] == SLASH
    ensures RemoveDotSegments([SLASH, DOT] + back, output) == RemoveDotSegments(back, output)
  {
    var input := [SLASH, DOT] + back;
    assert input[..3] == [SLASH, DOT, SLASH] && input[2..] == back && input[..2] == [SLASH, DOT];
  }

  lemma FirstSegmentGoes(a: Bytes, rest: Bytes)
    requires Plain(a) && rest != [] && rest[0] == SLASH
    ensures RemoveDotSegments([SLASH] + a + rest, []) == RemoveDotSegments(rest, [SLASH] + a)
  {
    var input := [SLASH] + a + rest;
    assert input[1..] == a + [SLASH] + rest[1..];
    FirstSlashAfter(a, rest[1..]);
    var n := FirstSegmentEnd(input);
    assert n == 1 + |a| && input[..n] == [SLASH] + a && input[n..] == rest;
    assert [] + ([SLASH] + a) == [SLASH] + a;
    PlainBegins(a, rest);
  }

  lemma BeginsAt(s: Bytes, prefix: Bytes)
    ensures Begins(s, prefix) <==> |prefix| <= |s| && forall i :: 0 <= i < |prefix| ==> s[i] == prefix[i]
  {
    if |prefix| <= |s| {
      assert forall i :: 0 <= i < |prefix| ==> s[..|prefix|][i] == s[i];
    }
  }

  lemma PlainBegins(a: Bytes, rest: Bytes)
    requires Plain(a) && rest != [] && rest[0] == SLASH
    ensures var input := [SLASH] + a + rest;
      && !Begins(input, [DOT, DOT, SLASH]) && !Begins(input, [DOT, SLASH])
      && !Begins(input, [SLASH, DOT, SLASH]) && input != [SLASH, DOT]
      && !Begins(input, [SLASH, DOT, DOT, SLASH]) && input != [SLASH, DOT, DOT] && !IsDotSegment(input)
  {
    var input := [SLASH] + a + rest;
    assert input[0] == SLASH && forall i :: 0 <= i < |a| ==> input[1 + i] == a[i];
    assert input[1 + |a|] == SLASH;
    BeginsAt(input, [SLASH, DOT, SLASH]);
    BeginsAt(input, [SLASH, DOT, DOT, SLASH]);
    var one, two := [SLASH, DOT, SLASH], [SLASH, DOT, DOT, SLASH];
    assert one[1] == DOT && one[2] == SLASH && two[1] == DOT && two[2] == DOT && two[3] == SLASH;
    assert a != [DOT] && a != [DOT, DOT];
    assert SLASH !in a && input[1 + |a|] != DOT;
    assert |a| == 1 ==> a == [input[1]];
    assert |a| == 2 ==> a == [input[1], input[2]];
    hide Begins;
  }

  ghost predicate NoDotSegment(path: Bytes) {
    forall i :: 0 <= i < |Split(path)| ==> !IsDotSegment(Split(path)[i])
  }

  lemma DotAfter(a: Bytes, dots: Bytes, b: Bytes)
    requires IsDotSegment(dots) && SLASH !in a
    ensures !NoDotSegment(dots + [SLASH] + b) && !NoDotSegment([SLASH] + dots + [SLASH] + b)
    ensures !NoDotSegment(dots) && !NoDotSegment([SLASH] + dots)
  {
    SplitNoSlash(dots);
    SplitAt(dots, b);
    SplitAt([], dots + [SLASH] + b);
    SplitAt([], dots);
    assert Split([]) == [[]];
    assert [] + [SLASH] + (dots + [SLASH] + b) == [SLASH] + dots + [SLASH] + b;
    assert [] + [SLASH] + dots == [SLASH] + dots;
    assert Split(dots + [SLASH] + b)[0] == dots;
    assert Split([SLASH] + dots + [SLASH] + b)[1] == dots;
    assert Split([SLASH] + dots)[1] == dots && Split(dots)[0] == dots;
  }

  /** A path without dot segments goes through the removal unchanged. */
  lemma {:induction false} NothingToRemove(input: Bytes, output: Bytes)
    requires NoDotSegment(input)
    ensures RemoveDotSegments(input, output) == output + input
    decreases |input|
  {
    if input != [] {
      NoDotBeginning(input);
      hide NoDotSegment, IsDotSegment, Begins;
      var n := FirstSegmentEnd(input);
      NoDotLater(input, n);
      NothingToRemove(input[n..], output + input[..n]);
      assert output + input[..n] + input[n..] == output + input;
    }
  }

  lemma NoDotLater(input: Bytes, n: nat)
    requires n <= |input| && (n < |input| ==> input[n] == SLASH)
    requires NoDotSegment(input)
    ensures NoDotSegment(input[n..])
  {
    hide IsDotSegment;
    if n == |input| {
      assert input[n..] == [];
      DotFreeEmpty();
    } else {
      var front, later := input[..n], input[n + 1..];
      assert input == front + [SLASH] + later && input[n..] == [] + [SLASH] + later;
      SplitAt(front, later);
      SplitAt([], later);
      DotFreeEmpty();
      forall i | 0 <= i < |Split(later)|
        ensures !IsDotSegment(Split(later)[i])
      {
        assert Split(later)[i] == Split(input)[|Split(front)| + i];
      }
    }
  }

  lemma DotFreeEmpty()
    ensures Split([]) == [[]] && !IsDotSegment([]) && NoDotSegment([])
  {
  }

  lemma NoDotBeginning(input: Bytes)
    requires NoDotSegment(input)
    ensures !Begins(input, [DOT, DOT, SLASH]) && !Begins(input, [DOT, SLASH])
    ensures !Begins(input, [SLASH, DOT, SLASH]) && input != [SLASH, DOT]
    ensures !Begins(input, [SLASH, DOT, DOT, SLASH]) && input != [SLASH, DOT, DOT]
    ensures !IsDotSegment(input)
  {
    DotAfter([], [DOT], []);
    DotAfter([], [DOT, DOT], []);
    if Begins(input, [DOT, DOT, SLASH]) {
      assert input == [DOT, DOT] + [SLASH] + input[3..];
      DotAfter([], [DOT, DOT], input[3..]);
    } else if Begins(input, [DOT, SLASH]) {
      assert input == [DOT] + [SLASH] + input[2..];
      DotAfter([], [DOT], input[2..]);
    } else if Begins(input, [SLASH, DOT, SLASH]) {
      assert input == [SLASH] + [DOT] + [SLASH] + input[3..];
      DotAfter([], [DOT], input[3..]);
    } else if Begins(input, [SLASH, DOT, DOT, SLASH]) {
      assert input == input[..4] + input[4..];
      assert [SLASH] + [DOT, DOT] + [SLASH] == [SLASH, DOT, DOT, SLASH];
      assert input == [SLASH] + [DOT, DOT] + [SLASH] + input[4..];
      DotAfter([], [DOT, DOT], input[4..]);
    } else {
      assert [SLASH] + [DOT] == [SLASH, DOT] && [SLASH] + [DOT, DOT] == [SLASH, DOT, DOT];
    }
  }

  /** A segment that reads as a dot segment decodes to that dot segment. */
  lemma {:induction false} DotsDecode(s: Bytes)
    requires forall i :: 0 <= i < |ReadDots(s)| ==> ReadDots(s)[i] == DOT
    ensures DecodeBytes(s) == ReadDots(s)
  {
    if s != [] {
      var rest := if StartsDotEscape(s) then s[3..] else s[1..];
      assert ReadDots(s) == [ReadDots(s)[0]] + ReadDots(rest);
      assert forall i :: 0 <= i < |ReadDots(rest)| ==> ReadDots(rest)[i] == ReadDots(s)[i + 1];
      DotsDecode(rest);
    }
  }

  lemma ReadsAsDotIsInvalid(u: Utf8, segment: Bytes)
    requires Lawful(u) && IsDotSegment(ReadDots(segment))
    ensures IsDotSegment(PercentDecode(u, segment)) && segment != []
  {
    DotsDecode(segment);
    if PERCENT !in segment {
      DecodeWithoutPercent(segment);
    } else {
      assert u.valid(ReadDots(segment));
    }
  }

  lemma {:induction false} SplitHead(a: Bytes, b: Bytes)
    requires SLASH !in a
    ensures Split(a + b) == [a + Split(b)[0]] + Split(b)[1..]
  {
    if a == [] {
      assert a + b == b && a + Split(b)[0] == Split(b)[0];
    } else {
      SplitHead(a[1..], b);
      assert (a + b)[1..] == a[1..] + b;
      assert [a[0]] + (a[1..] + Split(b)[0]) == a + Split(b)[0];
    }
  }

  lemma {:induction false} FirstPieceIsPrefix(path: Bytes)
    ensures |Split(path)[0]| <= |path| && Split(path)[0] == path[..|Split(path)[0]|]
  {
    if path != [] && path[0] != SLASH {
      FirstPieceIsPrefix(path[1..]);
    }
  }

  /** Reading `%2e` as a dot neither adds nor removes a separator. */
  lemma {:induction false} ReadDotsKeepsPieces(path: Bytes)
    ensures |Split(ReadDots(path))| == |Split(path)|
    ensures forall i :: 0 <= i < |Split(path)| ==> Split(ReadDots(path))[i] == ReadDots(Split(path)[i])
  {
    if path == [] {
      assert ReadDots(path) == [];
    } else {
      hide Split, ReadDots, StartsDotEscape;
      ReadDotsUnfold(path);
      if path[0] == SLASH {
        ReadDotsKeepsPieces(path[1..]);
        SplitUnfold(path);
        SplitUnfold([SLASH] + ReadDots(path[1..]));
        assert ([SLASH] + ReadDots(path[1..]))[1..] == ReadDots(path[1..]);
        ReadNothing();
      } else if StartsDotEscape(path) {
        ReadDotsKeepsPieces(path[3..]);
        EscapeIsPlain(path);
        PiecesOfHead(path, 3, DOT);
      } else {
        ReadDotsKeepsPieces(path[1..]);
        assert path[..1] == [path[0]];
        PiecesOfHead(path, 1, path[0]);
      }
    }
  }

  lemma ReadNothing()
    ensures ReadDots([]) == []
  {
  }

  lemma ReadDotsUnfold(path: Bytes)
    requires path != []
    ensures StartsDotEscape(path) ==> |path| >= 3 && path[0] != SLASH && ReadDots(path) == [DOT] + ReadDots(path[3..])
    ensures !StartsDotEscape(path) ==> ReadDots(path) == [path[0]] + ReadDots(path[1..])
  {
  }

  lemma EscapeIsPlain(path: Bytes)
    requires StartsDotEscape(path)
    ensures StartsDotEscape(path[..3]) && SLASH !in path[..3]
  {
  }

  lemma EscapeInFront(path: Bytes, n: nat)
    requires n <= |path| && StartsDotEscape(path[..n])
    ensures StartsDotEscape(path)
  {
  }

  /** The first piece behind a character, or behind an escape read as one. */
  lemma PiecesOfHead(path: Bytes, taken: nat, read: byte)
    requires taken <= |path| && SLASH !in path[..taken] && read != SLASH
    requires ReadDots(path) == [read] + ReadDots(path[taken..])
    requires || (taken == 3 && read == DOT && StartsDotEscape(path[..3]))
             || (taken == 1 && read == path[0] && !StartsDotEscape(path))
    ensures var rest := path[taken..];
      && Split(path) == [path[..taken] + Split(rest)[0]] + Split(rest)[1..]
      && Split(ReadDots(path)) == [[read] + Split(ReadDots(rest))[0]] + Split(ReadDots(rest))[1..]
      && ReadDots(Split(path)[0]) == [read] + ReadDots(Split(rest)[0])
  {
    hide Split, ReadDots, StartsDotEscape;
    var head, rest := path[..taken], path[taken..];
    assert path == head + rest;
    SplitHead(head, rest);
    SplitHead([read], ReadDots(rest));
    FirstPieceIsPrefix(path);
    var piece := head + Split(rest)[0];
    assert Split(path)[0] == piece;
    if StartsDotEscape(piece) {
      EscapeInFront(path, |piece|);
    }
    ReadFirstPiece(head, Split(rest)[0], read);
  }

  lemma ReadFirstPiece(head: Bytes, piece: Bytes, read: byte)
    requires (|head| == 3 && StartsDotEscape(head) && read == DOT) || (|head| == 1 && read == head[0])
    requires |head| == 1 ==> !StartsDotEscape(head + piece)
    ensures ReadDots(head + piece) == [read] + ReadDots(piece)
  {
    assert (head + piece)[|head|..] == piece;
  }

  lemma DotPieceIsInvalid(u: Utf8, path: Bytes, i: nat)
    requires Lawful(u) && i < |Split(path)|
    requires IsDotSegment(ReadDots(Split(path)[i])) || IsDotSegment(Split(path)[i])
    ensures Classify(u, path) == Invalid
  {
    var piece := Split(path)[i];
    if IsDotSegment(piece) {
      DecodeWithoutPercent(piece);
    }
    ReadsAsDotIsInvalid(u, piece);
    NonEmptyHolds(Split(path), i);
    var k :| 0 <= k < |Pieces(path)| && Pieces(path)[k] == piece;
    assert IsDotSegment(Decoded(u, Pieces(path))[k]);
  }

  /**
   A path that is not refused reads the same to a URL parser: dot-segment removal leaves it
   unchanged, also when `%2e` is read as a dot.
   */
  lemma AcceptedPathsAreCanonical(u: Utf8, path: Bytes)
    requires Lawful(u)
    requires Classify(u, path) != Invalid
    ensures RemoveDotSegments(path, []) == path
    ensures RemoveDotSegments(ReadDots(path), []) == ReadDots(path)
  {
    forall i | 0 <= i < |Split(path)|
      ensures !IsDotSegment(ReadDots(Split(path)[i])) && !IsDotSegment(Split(path)[i])
    {
      hide IsDotSegment, Classify;
      if IsDotSegment(ReadDots(Split(path)[i])) || IsDotSegment(Split(path)[i]) {
        DotPieceIsInvalid(u, path, i);
      }
    }
    ReadDotsKeepsPieces(path);
    NothingToRemove(path, []);
    NothingToRemove(ReadDots(path), []);
  }

  lemma {:induction false} NonEmptyHolds(pieces: seq<Bytes>, i: nat)
    requires i < |pieces| && pieces[i] != []
    ensures pieces[i] in NonEmpty(pieces)
  {
    if i > 0 {
      NonEmptyHolds(pieces[1..], i - 1);
    }
  }
}
