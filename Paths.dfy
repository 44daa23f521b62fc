/**
 * POSIX `pathlib` paths as the submission code uses them: parsing a string,
 * `dir / name`, `.name` and `.parent`. A path is whether it is rooted plus
 * its components; empty and "." components are dropped when parsing.
 */
module Paths {
  import opened Text

  datatype Path = Path(absolute: bool, parts: seq<string>)

  /** A component as `pathlib` keeps it: non-empty, not ".", without '/'. */
  predicate IsComponent(part: string)
  {
    part != "" && part != "." && '/' !in part
  }

  /** The pieces between slashes that `pathlib` keeps, in order. */
  function KeepComponents(pieces: seq<string>): (parts: seq<string>)
    ensures |parts| <= |pieces|
  {
    if |pieces| == 0 then []
    else
      var rest := KeepComponents(pieces[1..]);
      if pieces[0] == "" || pieces[0] == "." then rest else [pieces[0]] + rest
  }

  /** `PurePosixPath(s)`. */
  function ParsePath(s: string): Path
  {
    Path(|s| > 0 && s[0] == '/', KeepComponents(Split(s, '/')))
  }

  /** Keeping components drops exactly the empty and "." pieces. */
  lemma {:induction false} KeptPieces(pieces: seq<string>)
    ensures forall k :: 0 <= k < |KeepComponents(pieces)| ==>
      KeepComponents(pieces)[k] in pieces && KeepComponents(pieces)[k] != "" && KeepComponents(pieces)[k] != "."
  {
    if |pieces| > 0 {
      KeptPieces(pieces[1..]);
    }
  }

  /** Every component of a parsed path is a plain name: non-empty, not ".", without '/'. */
  lemma ParsedPartsAreComponents(s: string)
    ensures forall k :: 0 <= k < |ParsePath(s).parts| ==> IsComponent(ParsePath(s).parts[k])
  {
    SplitPiecesFree(s, '/');
    KeptPieces(Split(s, '/'));
  }

  /** A single plain file or folder name parses to itself. */
  lemma ParseName(name: string)
    requires IsComponent(name)
    ensures ParsePath(name) == Path(false, [name])
  {
    assert Split(name, '/') == [name];
    assert name[0] != '/' by {
      assert name[0] in name;
    }
  }

  /** `dir / s`: an absolute `s` replaces `dir`, a relative one is appended to it. */
  function Join(dir: Path, s: string): Path
  {
    var p := ParsePath(s);
    if p.absolute then p else Path(dir.absolute, dir.parts + p.parts)
  }

  /** `path.name`: the last component, or "" for a path with none. */
  function Name(p: Path): string
  {
    if |p.parts| == 0 then "" else p.parts[|p.parts| - 1]
  }

  /** `path.parent`: the path without its last component. */
  function Parent(p: Path): Path
  {
    if |p.parts| == 0 then p else Path(p.absolute, p.parts[..|p.parts| - 1])
  }

  /** `Path(s).name`. */
  function BaseName(s: string): string
  {
    Name(ParsePath(s))
  }

  /** Appending a plain name adds one component: it is the new `.name`, and `.parent` gives `dir` back. */
  lemma JoinName(dir: Path, name: string)
    requires IsComponent(name)
    ensures Join(dir, name) == Path(dir.absolute, dir.parts + [name])
    ensures Name(Join(dir, name)) == name
    ensures Parent(Join(dir, name)) == dir
  {
    ParseName(name);
    assert (dir.parts + [name])[..|dir.parts|] == dir.parts;
  }
}
