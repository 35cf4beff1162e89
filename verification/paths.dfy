/** The two `pathlib` operations the album parser uses, on names already
    split into path components. */
module Paths {
  import opened Wrappers

  /** Index of the last '.' in `name` (`str.rfind('.')`), or -1. */
  function LastDot(name: string): (i: int)
    ensures -1 <= i < |name|
    ensures i >= 0 ==> name[i] == '.'
    ensures forall j :: i < j < |name| ==> name[j] != '.'
  {
    if name == [] then -1
    else if name[|name| - 1] == '.' then |name| - 1
    else LastDot(name[..|name| - 1])
  }

  /** `PurePath(name).suffix` for a single path component (Python 3.6):
      the text from the last '.' on, provided that dot is neither the first
      nor the last character; otherwise the empty string. */
  function Suffix(name: string): (r: string)
    ensures r == [] || (
      && 2 <= |r| < |name|
      && r[0] == '.'
      && r == name[|name| - |r|..]
      && (forall j :: 1 <= j < |r| ==> r[j] != '.'))
    ensures r == [] <==>
      || (forall j :: 0 <= j < |name| ==> name[j] != '.')
      || (name[0] == '.' && forall j :: 0 < j < |name| ==> name[j] != '.')
      || name[|name| - 1] == '.'
  {
    var i := LastDot(name);
    if 0 < i < |name| - 1 then name[i..] else []
  }

  /** The suffix starts at the last dot when that dot is inside the name. */
  lemma SuffixFromDot(name: string, i: int)
    requires 0 < i < |name| - 1 && name[i] == '.'
    requires forall j :: i < j < |name| ==> name[j] != '.'
    ensures Suffix(name) == name[i..]
  {
  }

  /** A name ending in a dot has no suffix. */
  lemma NoSuffixAfterTrailingDot(name: string)
    requires |name| > 0 && name[|name| - 1] == '.'
    ensures Suffix(name) == []
  {
  }

  /** `Path(subdir).absolute().parts[-2:]` unpacked into two names: the
      artist folder and the album folder. Unpacking fails (a `ValueError`)
      when the absolute path has fewer than two parts, which happens only
      for the file-system root. */
  function LastTwoParts(parts: seq<string>): (r: Option<(string, string)>)
    ensures r.None? <==> |parts| < 2
    ensures r.Some? ==> parts == parts[..|parts| - 2] + [r.value.0, r.value.1]
  {
    if |parts| < 2 then None else Some((parts[|parts| - 2], parts[|parts| - 1]))
  }
}
