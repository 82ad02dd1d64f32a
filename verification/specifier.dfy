/**
 The image specifier a disk is built from:

   ramdisk:<N>[KiB|MiB|GiB]   a zero-filled memory disk of N units (binary units)
   nothing                    a disk without any capacity
   <anything else>            the path of an existing flat image file

 A `ramdisk:` specifier whose size does not parse is kept apart as
 `Malformed`; the disk built from it has no capacity.
 */
module Specifier {
  import opened Wrappers
  import opened Decimal

  datatype Unit = Bytes | KiB | MiB | GiB

  datatype Image =
    | RamDisk(size: nat)
    | Nothing
    | Path(path: string)
    | Malformed

  const KIB: nat := 1024
  const MIB: nat := 1024 * KIB
  const GIB: nat := 1024 * MIB

  const RAMDISK_PREFIX: string := "ramdisk:"
  const NOTHING: string := "nothing"

  /** The text written after the digits to select a unit. */
  function Suffix(u: Unit): string {
    match u
    case Bytes => ""
    case KiB => "KiB"
    case MiB => "MiB"
    case GiB => "GiB"
  }

  /** How many bytes one unit is. */
  function Factor(u: Unit): nat {
    match u
    case Bytes => 1
    case KiB => KIB
    case MiB => MIB
    case GiB => GIB
  }

  /** Recognises a unit suffix; exactly the four suffixes are accepted. */
  function ParseUnit(s: string): (r: Option<Unit>)
    ensures r.Some? ==> Suffix(r.value) == s
    ensures r.None? ==> forall u: Unit :: Suffix(u) != s
  {
    if s == Suffix(Bytes) then Some(Bytes)
    else if s == Suffix(KiB) then Some(KiB)
    else if s == Suffix(MiB) then Some(MiB)
    else if s == Suffix(GiB) then Some(GiB)
    else None
  }

  /** The byte count a size text stands for: one or more decimal digits
      followed by a unit suffix and nothing else. The text is accepted
      exactly when its leading digits are followed by a whole suffix, and
      then it stands for their value times the suffix's unit. */
  function ParseSize(s: string): (r: Option<nat>)
    ensures r.Some? <==>
              0 < DigitPrefix(s) && exists u: Unit :: s[DigitPrefix(s)..] == Suffix(u)
    ensures forall u: Unit :: 0 < DigitPrefix(s) && s[DigitPrefix(s)..] == Suffix(u) ==>
              r == Some(Value(s[..DigitPrefix(s)]) * Factor(u))
  {
    var k := DigitPrefix(s);
    if k == 0 then None
    else
      match ParseUnit(s[k..])
      case None => None
      case Some(u) => Some(Value(s[..k]) * Factor(u))
  }

  /** Classifies a specifier string. */
  function Parse(s: string): (r: Image)
    ensures r == Nothing <==> s == NOTHING
    ensures r.Path? <==> s != NOTHING && !(RAMDISK_PREFIX <= s)
    ensures r.Path? ==> r.path == s
    ensures r.RamDisk? || r.Malformed? <==> RAMDISK_PREFIX <= s
    ensures RAMDISK_PREFIX <= s ==> (r.RamDisk? <==> ParseSize(s[|RAMDISK_PREFIX|..]).Some?)
    ensures r.RamDisk? ==> ParseSize(s[|RAMDISK_PREFIX|..]) == Some(r.size)
  {
    if s == NOTHING then Nothing
    else if RAMDISK_PREFIX <= s then
      match ParseSize(s[|RAMDISK_PREFIX|..])
      case Some(n) => RamDisk(n)
      case None => Malformed
    else Path(s)
  }

  /** The size text for `n` units of `u`, as a user would write it. */
  function FormatSize(n: nat, u: Unit): string {
    Render(n) + Suffix(u)
  }

  /** Every unit suffix is recognised as its own unit. */
  lemma ParseUnitOfSuffix(u: Unit)
    ensures ParseUnit(Suffix(u)) == Some(u)
  {
    match u
    case Bytes =>
    case KiB =>
    case MiB =>
    case GiB =>
  }

  /** Digits followed by a unit suffix parse to digits times unit. */
  lemma ParseSizeOfDigits(ds: string, u: Unit)
    requires 0 < |ds| && AllDigits(ds)
    ensures ParseSize(ds + Suffix(u)) == Some(Value(ds) * Factor(u))
  {
    var s := ds + Suffix(u);
    DigitPrefixOfConcat(ds, Suffix(u));
    var k := DigitPrefix(s);
    assert k == |ds|;
    assert s[..k] == ds;
    assert s[k..] == Suffix(u);
    ParseUnitOfSuffix(u);
  }

  /** Parsing a formatted size gives back the byte count it names. */
  lemma ParseFormatSize(n: nat, u: Unit)
    ensures ParseSize(FormatSize(n, u)) == Some(n * Factor(u))
  {
    ParseSizeOfDigits(Render(n), u);
    ValueOfRender(n);
  }

  /** A size text with no leading digit, or with text after the digits
      that is not a unit suffix, is refused. */
  lemma ParseSizeRejects(ds: string, rest: string)
    requires AllDigits(ds)
    requires |rest| == 0 || !IsDigit(rest[0])
    requires |ds| == 0 || forall u: Unit :: Suffix(u) != rest
    ensures ParseSize(ds + rest) == None
  {
    var s := ds + rest;
    DigitPrefixOfConcat(ds, rest);
    assert s[|ds|..] == rest;
  }

  /** `ramdisk:` followed by a formatted size is a memory disk of that
      many bytes. */
  lemma ParseRamDisk(n: nat, u: Unit)
    ensures Parse(RAMDISK_PREFIX + FormatSize(n, u)) == RamDisk(n * Factor(u))
  {
    var s := RAMDISK_PREFIX + FormatSize(n, u);
    assert s[|RAMDISK_PREFIX|..] == FormatSize(n, u);
    assert s[..|RAMDISK_PREFIX|] == RAMDISK_PREFIX;
    ParseFormatSize(n, u);
  }
}
