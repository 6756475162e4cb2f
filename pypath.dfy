/** The parts of `pathlib.PurePosixPath` the core reads, on path strings that are
    already normalised (no trailing slash, no `.` components): `name`, `parent`,
    `suffix`, `stem`, and `parent / name`. */
module PyPath {
  import opened PyText

  /** The directory part, up to and including the last slash; `parent / n` is `Dir(path) + n`. */
  function Dir(path: string): (r: string)
    ensures |r| <= |path| && r == path[..|r|]
    ensures r == [] || r[|r| - 1] == '/'
    ensures forall j :: |r| <= j < |path| ==> path[j] != '/'
  {
    path[..RFind(path, '/') + 1]
  }

  /** `path.name`: the text after the last slash. */
  function Name(path: string): (r: string)
    ensures '/' !in r
    ensures Dir(path) + r == path
  {
    var d := Dir(path);
    var r := path[|d|..];
    assert forall k :: 0 <= k < |r| ==> r[k] == path[|d| + k];
    assert d + r == path;
    r
  }

  /** `path.with_name(n)`: same directory, another name. */
  function WithName(path: string, n: string): (r: string)
    ensures '/' !in n ==> Name(r) == n && Dir(r) == Dir(path)
  {
    var r := Dir(path) + n;
    if '/' !in n then
      assert RFind(r, '/') == |Dir(path)| - 1 by {
        var d := Dir(path);
        assert d == [] || d[|d| - 1] == '/';
        forall j | |d| <= j < |r| ensures r[j] != '/' {
          assert r[j] == n[j - |d|];
        }
        assert d != [] ==> r[|d| - 1] == '/';
      }
      r
    else r
  }

  /** Where the suffix starts in `name`, or -1: the last dot, provided it is neither the
      first nor the last character. */
  function SuffixStart(name: string): (i: int)
    ensures i == -1 || (0 < i < |name| - 1 && name[i] == '.' && '.' !in name[i + 1..])
  {
    var i := RFind(name, '.');
    if 0 < i < |name| - 1 then
      var tail := name[i + 1..];
      assert '.' !in tail by {
        forall k | 0 <= k < |tail| ensures tail[k] != '.' {
          assert tail[k] == name[i + 1 + k];
        }
      }
      i
    else -1
  }

  /** `path.suffix`: a dot and at least one more character, with no further dot. */
  function Suffix(path: string): (r: string)
    ensures r == [] || (|r| >= 2 && r[0] == '.' && '.' !in r[1..] && '/' !in r)
  {
    var name := Name(path);
    var i := SuffixStart(name);
    if i < 0 then ""
    else
      assert name[i..][1..] == name[i + 1..];
      name[i..]
  }

  /** `path.stem`: the name without its suffix. */
  function Stem(path: string): (r: string)
    ensures |r| <= |Name(path)| && r == Name(path)[..|r|]
  {
    var name := Name(path);
    var i := SuffixStart(name);
    if i < 0 then name else name[..i]
  }

  /** The stem and the suffix make up the name again. */
  lemma StemSuffix(path: string)
    ensures Stem(path) + Suffix(path) == Name(path)
    ensures Suffix(path) != [] ==> Stem(path) != []
  {
    if SuffixStart(Name(path)) >= 0 {
      SplitAtSuffix(path);
    }
  }

  lemma SplitAtSuffix(path: string)
    requires SuffixStart(Name(path)) >= 0
    ensures Stem(path) == Name(path)[..SuffixStart(Name(path))] && Suffix(path) == Name(path)[SuffixStart(Name(path))..]
    ensures Stem(path) + Suffix(path) == Name(path) && Stem(path) != []
  {
    var name := Name(path);
    var i := SuffixStart(name);
    assert name == name[..i] + name[i..];
  }
}
