/** `Version::parse` and `Display` for `MAJOR.MINOR.PATCH`. */
module ReleaseVersion {
  import opened Wrappers
  import opened Decimal
  import opened PriceText

  const U64_MAX: nat := 0xFFFF_FFFF_FFFF_FFFF

  datatype Version = Version(major: nat, minor: nat, patch: nat)

  predicate Fits(v: Version) { v.major <= U64_MAX && v.minor <= U64_MAX && v.patch <= U64_MAX }

  function Component(part: string): Option<nat> {
    if part == "" || !AllDigits(part) || !(|part| == 1 || part[0] != '0') then None
    else if Value(part) > U64_MAX then None
    else Some(Value(part))
  }

  function Parse(text: string): Option<Version> {
    var parts := Split(text, '.');
    if |parts| != 3 then None
    else
      match (Component(parts[0]), Component(parts[1]), Component(parts[2]))
      case (Some(major), Some(minor), Some(patch)) => Some(Version(major, minor, patch))
      case _ => None
  }

  function Display(v: Version): string { Print(v.major) + ['.'] + Print(v.minor) + ['.'] + Print(v.patch) }

  lemma ComponentIsPrint(part: string, n: nat)
    ensures Component(part) == Some(n) <==> n <= U64_MAX && part == Print(n)
  {
    PrintThenRead(n);
    if part != "" && AllDigits(part) && (|part| == 1 || part[0] != '0') { ReadThenPrint(part); }
  }

  lemma Split3(a: string, b: string, c: string)
    requires '.' !in a && '.' !in b && '.' !in c
    ensures Split(a + ['.'] + b + ['.'] + c, '.') == [a, b, c]
  {
    SplitAppend(a + ['.'] + b, c, '.');
    SplitAppend(a, b, '.');
    SplitAlone(a, '.');
  }

  /** Parsing and printing are mutual inverses on triples of 64-bit numbers: a text is
      accepted exactly if it is the print of the version it is read as. */
  lemma ParseIsInverseOfDisplay(text: string, v: Version)
    ensures Parse(text) == Some(v) <==> Fits(v) && text == Display(v)
  {
    ComponentIsPrint(Print(v.major), v.major);
    ComponentIsPrint(Print(v.minor), v.minor);
    ComponentIsPrint(Print(v.patch), v.patch);
    Split3(Print(v.major), Print(v.minor), Print(v.patch));
    hide Split, Print, Component;
    if Parse(text) == Some(v) {
      var p := Split(text, '.');
      ComponentIsPrint(p[0], v.major);
      ComponentIsPrint(p[1], v.minor);
      ComponentIsPrint(p[2], v.patch);
      JoinSplit(text, '.');
      assert p[..2] == [p[0], p[1]] && p[..2][..1] == [p[0]];
      assert Join(p[..2], '.') == p[0] + ['.'] + p[1];
    }
  }
}
