/** Paths as `/`-separated strings: `path.join` of a directory and a name,
    and `path.relative` from a directory to a path beneath it. */
module Paths {
  import opened Text

  function Join(dir: string, name: string): (p: string)
    ensures StartsWith(p, dir + "/")
    ensures |p| == |dir| + 1 + |name|
  {
    dir + "/" + name
  }

  /** `path.relative(base, p)` for a `p` found beneath `base`: the part of
      `p` after `base` and its separator.  Any other `p` is returned unchanged. */
  function Relative(base: string, p: string): (r: string)
    ensures StartsWith(p, base + "/") ==> p == base + "/" + r
    ensures !StartsWith(p, base + "/") ==> r == p
  {
    if StartsWith(p, base + "/") then p[|base| + 1..] else p
  }

  lemma RelativeOfJoin(base: string, rest: string)
    ensures Relative(base, Join(base, rest)) == rest
  {
    var p := Join(base, rest);
    assert p == (base + "/") + rest;
    assert p[|base| + 1..] == rest;
  }
}
