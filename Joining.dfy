/** Joining a list of strings with a separator (`[String]::join`) and its
    inverse, splitting at every ", " (`str::split(", ")`), used to state how
    many entries a rewritten parameter list holds. */
module Joining {

  /** The separator `rewrite_parameters` joins entries with. */
  const Separator := ", "

  /** `parts.join(sep)`: the parts in order, with `sep` between neighbours. */
  function Join(parts: seq<string>, sep: string): (r: string)
    ensures parts == [] ==> r == []
    ensures parts != [] ==> |parts[0]| <= |r| && r[..|parts[0]|] == parts[0]
  {
    if |parts| == 0 then []
    else if |parts| == 1 then parts[0]
    else parts[0] + sep + Join(parts[1..], sep)
  }

  /** `s.split(", ")`: the pieces between the occurrences of the separator,
      found left to right; there is always at least one piece. */
  function SplitEntries(s: string): (r: seq<string>)
    ensures |r| >= 1
    decreases |s|
  {
    if |s| >= 2 && s[0] == ',' && s[1] == ' ' then [[]] + SplitEntries(s[2..])
    else if s == [] then [[]]
    else
      var rest := SplitEntries(s[1..]);
      [[s[0]] + rest[0]] + rest[1..]
  }

  /** `s` contains the separator ", " somewhere. */
  predicate ContainsSeparator(s: string)
  {
    exists i :: 0 <= i < |s| - 1 && s[i] == ',' && s[i + 1] == ' '
  }

  /** A piece free of the separator, followed by text that is empty or
      starts with the separator's comma, stays in the first split entry. */
  lemma {:induction false} SplitPrefix(x: string, t: string)
    requires !ContainsSeparator(x)
    requires t == [] || t[0] == ','
    ensures SplitEntries(x + t) == [x + SplitEntries(t)[0]] + SplitEntries(t)[1..]
  {
    if x == [] {
      assert x + t == t;
      assert x + SplitEntries(t)[0] == SplitEntries(t)[0];
    } else {
      var s := x + t;
      assert s[1..] == x[1..] + t;
      assert !ContainsSeparator(x[1..]);
      SplitPrefix(x[1..], t);
      assert !(|s| >= 2 && s[0] == ',' && s[1] == ' ') by {
        if |x| >= 2 {
          assert s[0] == x[0] && s[1] == x[1];
          assert !(x[0] == ',' && x[1] == ' ');
        } else if |s| >= 2 {
          assert s[1] == t[0];
        }
      }
      assert [x[0]] + (x[1..] + SplitEntries(t)[0]) == x + SplitEntries(t)[0];
    }
  }

  /** Splitting a joined list gives the list back, provided no part contains
      the separator itself. */
  lemma {:induction false} SplitJoin(parts: seq<string>)
    requires |parts| >= 1
    requires forall k :: 0 <= k < |parts| ==> !ContainsSeparator(parts[k])
    ensures SplitEntries(Join(parts, Separator)) == parts
  {
    if |parts| == 1 {
      SplitPrefix(parts[0], []);
      assert parts[0] + [] == parts[0];
    } else {
      var rest := Join(parts[1..], Separator);
      assert Join(parts, Separator) == parts[0] + (Separator + rest);
      SplitPrefix(parts[0], Separator + rest);
      assert (Separator + rest)[2..] == rest;
      SplitJoin(parts[1..]);
      assert parts[0] + [] == parts[0];
    }
  }
}
