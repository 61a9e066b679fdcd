/**
 * The visibility filter every generation applies to its row and section
 * lists, stated once over a sequence and a parallel sequence of flags.
 */
module Filtering {

  /** The elements of `s` whose flag is set, in their original relative order. */
  function Keep<T>(s: seq<T>, flags: seq<bool>): (r: seq<T>)
    requires |flags| == |s|
    ensures |r| <= |s|
    decreases |s|
  {
    if s == [] then []
    else Keep(s[..|s| - 1], flags[..|s| - 1]) + (if flags[|s| - 1] then [s[|s| - 1]] else [])
  }

  /** The indices at which `flags` is set, in ascending order. */
  function Positions(flags: seq<bool>): (p: seq<nat>)
    ensures |p| <= |flags|
    ensures forall k :: 0 <= k < |p| ==> p[k] < |flags| && flags[p[k]]
    ensures forall k, l :: 0 <= k < l < |p| ==> p[k] < p[l]
    ensures forall i :: 0 <= i < |flags| && flags[i] ==> i in p
    decreases |flags|
  {
    if flags == [] then []
    else
      var front := flags[..|flags| - 1];
      assert forall i :: 0 <= i < |front| ==> front[i] == flags[i];
      Positions(front) + (if flags[|flags| - 1] then [|flags| - 1] else [])
  }

  /**
   * `r` lists exactly the elements of `s` at the flagged positions, in order:
   * its k-th element is the element at the k-th flagged index of `s`.
   */
  ghost predicate Selects<T>(r: seq<T>, s: seq<T>, flags: seq<bool>)
    requires |flags| == |s|
  {
    var p := Positions(flags);
    |r| == |p| && forall k :: 0 <= k < |r| ==> r[k] == s[p[k]]
  }

  /** Keep is the order-preserving selection of the flagged elements. */
  lemma {:induction false} KeepSelects<T>(s: seq<T>, flags: seq<bool>)
    requires |flags| == |s|
    ensures Selects(Keep(s, flags), s, flags)
    decreases |s|
  {
    if s != [] {
      var n := |s| - 1;
      var front, fflags := s[..n], flags[..n];
      KeepSelects(front, fflags);
      assert forall i :: 0 <= i < n ==> fflags[i] == flags[i];
      assert Positions(flags) == Positions(fflags) + (if flags[n] then [n] else []);
    }
  }

  /** An element survives the filter exactly when it sits at some flagged index. */
  lemma KeepMembers<T>(s: seq<T>, flags: seq<bool>)
    requires |flags| == |s|
    ensures forall x :: x in Keep(s, flags) <==> exists i :: 0 <= i < |s| && flags[i] && s[i] == x
  {
    var r, p := Keep(s, flags), Positions(flags);
    KeepSelects(s, flags);
    forall x | x in r
      ensures exists i :: 0 <= i < |s| && flags[i] && s[i] == x
    {
      var k :| 0 <= k < |r| && r[k] == x;
      assert flags[p[k]] && s[p[k]] == x;
    }
    forall x | exists i :: 0 <= i < |s| && flags[i] && s[i] == x
      ensures x in r
    {
      var i :| 0 <= i < |s| && flags[i] && s[i] == x;
      var k :| 0 <= k < |p| && p[k] == i;
      assert r[k] == x;
    }
  }

  /** Appending one element appends it to the filtered view exactly when its flag is set. */
  lemma KeepAppend<T>(s: seq<T>, flags: seq<bool>, x: T, b: bool)
    requires |flags| == |s|
    ensures Keep(s + [x], flags + [b]) == Keep(s, flags) + (if b then [x] else [])
  {
    assert (s + [x])[..|s|] == s;
    assert (flags + [b])[..|s|] == flags;
  }
}
