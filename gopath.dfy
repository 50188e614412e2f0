/** The few Go standard-library string and path helpers the loader relies on. */
module GoPath {

  /** strings.HasSuffix */
  predicate HasSuffix(s: string, suffix: string) {
    |suffix| <= |s| && s[|s| - |suffix|..] == suffix
  }

  /** path.Ext: the suffix of `p` that starts at the last '.' of its final
      slash-separated element, or "" when that element has no '.'. */
  function Ext(p: string): (r: string)
    ensures r == "" || (r[0] == '.' && HasSuffix(p, r))
    ensures forall k :: |p| - |r| < k < |p| ==> p[k] != '.' && p[k] != '/'
    ensures r == "" ==> forall k :: 0 <= k < |p| && p[k] == '.' ==> exists j :: k < j < |p| && p[j] == '/'
  {
    ExtBefore(p, |p|)
  }

  /** The backwards scan of path.Ext, started at index i - 1. */
  function ExtBefore(p: string, i: nat): (r: string)
    requires i <= |p|
    decreases i
    ensures r != "" ==> r[0] == '.' && HasSuffix(p, r) && |p| - |r| < i
    ensures r != "" ==> forall k :: |p| - |r| < k < i ==> p[k] != '.' && p[k] != '/'
    ensures r == "" ==> forall k :: 0 <= k < i && p[k] == '.' ==> exists j :: k < j < i && p[j] == '/'
  {
    if i == 0 then ""
    else if p[i - 1] == '/' then ""
    else if p[i - 1] == '.' then p[i - 1..]
    else ExtBefore(p, i - 1)
  }

  /** path.Join of two elements that are already in clean form (the
      cleaning pass of path.Join is not modelled): "." and "" as either
      element drop out, and "/" is not doubled. */
  function Join(elem: string, rel: string): (r: string)
    ensures elem !in {"", ".", "/"} && rel !in {"", "."} ==> r == elem + "/" + rel
    ensures rel in {"", "."} && elem != "" ==> r == elem
  {
    if rel == "" || (rel == "." && elem != "") then elem
    else if elem == "" || elem == "." then rel
    else if elem == "/" then "/" + rel
    else elem + "/" + rel
  }
}
