/**
 * Group names are '/'-separated paths. The controller finds a group's parent
 * with PHP's `explode('/', ...)`, dropping the last piece and `implode`; the
 * view shows the last piece as the group's label. This module models the two
 * PHP functions and proves what the parent and label are.
 */
module GroupNames {

  /** PHP `explode('/', s)`: the pieces between slashes; `explode('/', '')` is `['']`. */
  function Explode(s: string): (parts: seq<string>)
    ensures |parts| >= 1
    decreases |s|
  {
    if s == [] then [[]]
    else
      var rest := Explode(s[1..]);
      if s[0] == '/' then [[]] + rest else [[s[0]] + rest[0]] + rest[1..]
  }

  /** PHP `implode('/', parts)`. */
  function Implode(parts: seq<string>): string
  {
    if parts == [] then ""
    else if |parts| == 1 then parts[0]
    else parts[0] + "/" + Implode(parts[1..])
  }

  /** `$grp_arr` has more than one piece: the name holds a '/'. */
  predicate HasParent(name: string) {
    |Explode(name)| > 1
  }

  /** The controller's parent name: all pieces but the last, joined again. */
  function ParentName(name: string): string
  {
    var parts := Explode(name);
    Implode(parts[..|parts| - 1])
  }

  /** The view's group label: `end(explode('/', $group_name))`. */
  function LastPiece(name: string): string
  {
    var parts := Explode(name);
    parts[|parts| - 1]
  }

  /** Index of the last '/' of a name that has one. */
  function LastSlash(s: string): (k: nat)
    requires '/' in s
    ensures k < |s| && s[k] == '/' && '/' !in s[k + 1..]
  {
    if s[|s| - 1] == '/' then |s| - 1
    else
      assert '/' in s[..|s| - 1] by {
        var i :| 0 <= i < |s| && s[i] == '/';
        assert s[..|s| - 1][i] == '/';
      }
      var k := LastSlash(s[..|s| - 1]);
      assert s[k + 1..] == s[..|s| - 1][k + 1..] + [s[|s| - 1]];
      k
  }

  lemma {:induction false} ExplodeNoSlash(b: string)
    requires '/' !in b
    ensures Explode(b) == [b]
    decreases |b|
  {
    if b != [] {
      assert '/' !in b[1..];
      ExplodeNoSlash(b[1..]);
      assert [b[0]] + b[1..] == b;
    }
  }

  /** Splitting after a prefix: the pieces of `a/b`, with no '/' in b, are a's pieces and b. */
  lemma {:induction false} ExplodeLast(a: string, b: string)
    requires '/' !in b
    ensures Explode(a + "/" + b) == Explode(a) + [b]
    decreases |a|
  {
    var s := a + "/" + b;
    if a == [] {
      assert s == "/" + b && s[1..] == b;
      ExplodeNoSlash(b);
    } else {
      assert s[0] == a[0] && s[1..] == a[1..] + "/" + b;
      ExplodeLast(a[1..], b);
      var rest := Explode(a[1..]);
      if a[0] != '/' {
        assert (rest + [b])[0] == rest[0];
        assert (rest + [b])[1..] == rest[1..] + [b];
      }
    }
  }

  lemma {:induction false} ImplodeExplode(s: string)
    ensures Implode(Explode(s)) == s
    decreases |s|
  {
    if s != [] {
      ImplodeExplode(s[1..]);
      var rest := Explode(s[1..]);
      if s[0] == '/' {
        assert s == "/" + s[1..];
      } else {
        var p := [[s[0]] + rest[0]] + rest[1..];
        if |rest| == 1 {
          assert s == [s[0]] + rest[0];
        } else {
          assert p[1..] == rest[1..];
          assert Implode(rest) == rest[0] + "/" + Implode(rest[1..]);
          assert s == [s[0]] + s[1..];
        }
      }
    }
  }

  /** Every name splits at its last '/' into the parent name and the last piece. */
  lemma SplitAtLastSlash(name: string)
    requires '/' in name
    ensures var k := LastSlash(name);
      && HasParent(name)
      && ParentName(name) == name[..k]
      && LastPiece(name) == name[k + 1..]
      && name == ParentName(name) + "/" + LastPiece(name)
  {
    var k := LastSlash(name);
    var a, b := name[..k], name[k + 1..];
    assert name == a + "/" + b;
    ExplodeLast(a, b);
    var parts := Explode(a) + [b];
    assert parts[..|parts| - 1] == Explode(a);
    ImplodeExplode(a);
  }

  /** A name has a parent exactly when it contains a '/'. */
  lemma HasParentIffSlash(name: string)
    ensures HasParent(name) <==> '/' in name
  {
    if '/' in name {
      SplitAtLastSlash(name);
    } else {
      ExplodeNoSlash(name);
    }
  }

  /** The parent name is a strict prefix: the key of a child is always longer than its parent's. */
  lemma ParentShorter(name: string)
    requires HasParent(name)
    ensures |ParentName(name)| < |name|
    ensures name == ParentName(name) + "/" + LastPiece(name)
  {
    HasParentIffSlash(name);
    SplitAtLastSlash(name);
  }

  /** Without a '/', the label is the whole name. */
  lemma LastPieceNoSlash(name: string)
    requires '/' !in name
    ensures LastPiece(name) == name && !HasParent(name)
  {
    ExplodeNoSlash(name);
  }

  /** A name that starts with its only '/' has the empty parent name. */
  lemma LeadingSlashParent(b: string)
    requires '/' !in b
    ensures HasParent("/" + b) && ParentName("/" + b) == ""
  {
    ExplodeLast("", b);
    assert "" + "/" + b == "/" + b;
  }

  /** Joining a name and a piece without '/' gives a name whose parent is that name and whose label is the piece. */
  lemma JoinParent(a: string, b: string)
    requires '/' !in b
    ensures HasParent(a + "/" + b)
    ensures ParentName(a + "/" + b) == a && LastPiece(a + "/" + b) == b
  {
    ExplodeLast(a, b);
    var parts := Explode(a) + [b];
    assert parts[..|parts| - 1] == Explode(a);
    ImplodeExplode(a);
  }
}
