/** File-system paths as Go's path/filepath sees them after cleaning: a flag
    for absolute paths and the list of components between the slashes. */
module Paths {
  import opened Wrappers
  import opened Errors

  datatype Path = Path(absolute: bool, parts: seq<string>)

  /** A component of a cleaned path: not empty, not "." or "..", no slash. */
  predicate ValidPart(s: string) {
    s != "" && s != "." && s != ".." && '/' !in s
  }

  predicate Clean(p: Path) {
    forall i :: 0 <= i < |p.parts| ==> ValidPart(p.parts[i])
  }

  /** filepath.Join(p, name) for a single component `name`. */
  function Join(p: Path, name: string): Path {
    Path(p.absolute, p.parts + [name])
  }

  /** The components written out with "/" between them. */
  function JoinParts(parts: seq<string>): string {
    if |parts| == 0 then ""
    else if |parts| == 1 then parts[0]
    else parts[0] + "/" + JoinParts(parts[1..])
  }

  /** The string Go would print for the path. */
  function Render(p: Path): string {
    if p.absolute then "/" + JoinParts(p.parts)
    else if p.parts == [] then "."
    else JoinParts(p.parts)
  }

  predicate HasPrefix(s: string, prefix: string) {
    |prefix| <= |s| && s[..|prefix|] == prefix
  }

  /** `p` is `base` itself or lies below it. */
  predicate Within(base: Path, p: Path) {
    base.absolute == p.absolute && base.parts <= p.parts
  }

  /** The number of leading components two paths share. */
  function CommonPrefix(a: seq<string>, b: seq<string>): (k: nat)
    ensures k <= |a| && k <= |b|
    ensures a[..k] == b[..k]
    ensures k < |a| && k < |b| ==> a[k] != b[k]
  {
    if |a| == 0 || |b| == 0 || a[0] != b[0] then 0
    else 1 + CommonPrefix(a[1..], b[1..])
  }

  function Ups(n: nat): (r: seq<string>)
    ensures |r| == n
    ensures forall i :: 0 <= i < n ==> r[i] == ".."
  {
    if n == 0 then [] else [".."] + Ups(n - 1)
  }

  /** filepath.Rel(base, targ) for cleaned paths, as a list of components:
      one ".." per component of `base` past the shared prefix, then the rest
      of `targ`. Go refuses when one path is absolute and the other is not. */
  function RelParts(base: Path, targ: Path): Result<seq<string>, Error> {
    if base.absolute != targ.absolute then
      Failure(Message("Rel: can't make " + Render(targ) + " relative to " + Render(base)))
    else
      var k := CommonPrefix(base.parts, targ.parts);
      Success(Ups(|base.parts| - k) + targ.parts[k..])
  }

  /** filepath.Rel(base, targ) as the string it returns ("." for the same path). */
  function Rel(base: Path, targ: Path): Result<string, Error> {
    match RelParts(base, targ)
    case Failure(e) => Failure(e)
    case Success(parts) => Success(if parts == [] then "." else JoinParts(parts))
  }

  /** A list of components each of which is a cleaned component or "..",
      the shape of every RelParts result. */
  predicate RelShaped(parts: seq<string>) {
    forall i :: 0 <= i < |parts| ==> parts[i] == ".." || ValidPart(parts[i])
  }

  lemma {:induction false} JoinPartsStart(parts: seq<string>)
    requires |parts| >= 2
    ensures JoinParts(parts) == parts[0] + "/" + JoinParts(parts[1..])
  {
  }

  /** A single component never starts with "../". */
  lemma {:induction false} PartNoDotDotSlash(p: string)
    requires p == ".." || ValidPart(p)
    ensures !HasPrefix(p, "../")
  {
    assert |p| >= 3 ==> p[2] in p;
  }

  /** A component followed by "/" starts "../" only when it is "..". */
  lemma {:induction false} JoinedDotDotSlash(p: string, rest: string)
    requires p == ".." || ValidPart(p)
    ensures HasPrefix(p + "/" + rest, "../") <==> p == ".."
  {
    var s := p + "/" + rest;
    if p == ".." {
      assert s[..3] == "../";
    } else {
      assert |p| >= 3 ==> s[2] == p[2] && p[2] in p;
      assert |p| == 2 ==> s[..2] == p;
      assert |p| == 1 ==> s[1] == '/';
    }
  }

  /** The rendered relative path starts with "../" exactly when it has at
      least two components and the first is "..". */
  lemma {:induction false} DotDotSlashPrefix(parts: seq<string>)
    requires |parts| >= 1 && RelShaped(parts)
    ensures HasPrefix(JoinParts(parts), "../") <==> |parts| >= 2 && parts[0] == ".."
  {
    assert parts[0] == ".." || ValidPart(parts[0]);
    if |parts| == 1 {
      PartNoDotDotSlash(parts[0]);
    } else {
      JoinedDotDotSlash(parts[0], JoinParts(parts[1..]));
    }
  }

  /** RelParts of cleaned paths has the shape above. */
  lemma RelPartsShaped(base: Path, targ: Path)
    requires Clean(targ) && base.absolute == targ.absolute
    ensures RelParts(base, targ).Success?
    ensures RelShaped(RelParts(base, targ).value)
  {
    var k := CommonPrefix(base.parts, targ.parts);
    var r := Ups(|base.parts| - k) + targ.parts[k..];
    forall i | 0 <= i < |r| ensures r[i] == ".." || ValidPart(r[i]) {
      if i >= |base.parts| - k {
        assert r[i] == targ.parts[k + i - (|base.parts| - k)];
      }
    }
  }
}
