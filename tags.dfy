/**
 * Merging a host's own tags with the tags it inherits from its templates
 * (host-list controller, `getData`). The host's tags come first; an inherited
 * tag is appended unless the same (tag, value) pair is already in the list.
 */
module TagMerge {
  import opened HostTypes

  /** Appends each inherited tag in turn unless the list built so far holds it. */
  function AppendNew(acc: seq<Tag>, inherited: seq<Tag>): seq<Tag>
    decreases |inherited|
  {
    if inherited == [] then acc
    else
      var r := AppendNew(acc, inherited[..|inherited| - 1]);
      var t := inherited[|inherited| - 1];
      if t in r then r else r + [t]
  }

  /** The tag list a host ends up with. */
  function MergedTags(tags: seq<Tag>, inherited: seq<Tag>): seq<Tag>
  {
    if inherited == [] then tags
    else if tags == [] then inherited
    else AppendNew(tags, inherited)
  }

  /** `xs` occurs in `ys` in the same order, possibly with gaps. */
  ghost predicate Subsequence(xs: seq<Tag>, ys: seq<Tag>)
    decreases |ys|
  {
    if xs == [] then true
    else if ys == [] then false
    else if xs[|xs| - 1] == ys[|ys| - 1] then Subsequence(xs[..|xs| - 1], ys[..|ys| - 1])
    else Subsequence(xs, ys[..|ys| - 1])
  }

  /** Every element of `s` from position `n` on differs from all elements before it. */
  ghost predicate FreshAfter(s: seq<Tag>, n: nat) {
    forall k :: n <= k < |s| ==> s[k] !in s[..k]
  }

  /** No pair of equal tags in `s`. */
  ghost predicate Distinct(s: seq<Tag>) {
    forall i, j :: 0 <= i < j < |s| ==> s[i] != s[j]
  }

  /** The loop of the controller, in its own form: an outer loop over the inherited tags and an inner search. */
  method MergeTags(tags: seq<Tag>, inherited: seq<Tag>) returns (merged: seq<Tag>)
    ensures merged == MergedTags(tags, inherited)
  {
    if inherited == [] {
      merged := tags;
    } else if tags == [] {
      merged := inherited;
    } else {
      merged := tags;
      var i: nat := 0;
      while i < |inherited|
        invariant i <= |inherited|
        invariant merged == AppendNew(tags, inherited[..i])
      {
        var t := inherited[i];
        var duplicate := false;
        var j: nat := 0;
        while j < |merged|
          invariant j <= |merged|
          invariant !duplicate ==> t !in merged[..j]
          invariant duplicate ==> t in merged
        {
          if merged[j].tag == t.tag && merged[j].value == t.value {
            duplicate := true;
            break;
          }
          j := j + 1;
        }
        assert inherited[..i + 1][..i] == inherited[..i];
        if !duplicate {
          assert merged[..j] == merged;
          merged := merged + [t];
        }
        i := i + 1;
      }
      assert inherited[..i] == inherited;
    }
  }

  lemma {:induction false} AppendNewPrefix(acc: seq<Tag>, inherited: seq<Tag>)
    ensures var r := AppendNew(acc, inherited); |r| >= |acc| && r[..|acc|] == acc
    decreases |inherited|
  {
    if inherited != [] {
      AppendNewPrefix(acc, inherited[..|inherited| - 1]);
    }
  }

  lemma {:induction false} AppendNewCovers(acc: seq<Tag>, inherited: seq<Tag>)
    ensures forall t :: t in inherited ==> t in AppendNew(acc, inherited)
    ensures forall t :: t in AppendNew(acc, inherited) ==> t in acc || t in inherited
    decreases |inherited|
  {
    if inherited != [] {
      var init := inherited[..|inherited| - 1];
      AppendNewCovers(acc, init);
      assert inherited == init + [inherited[|inherited| - 1]];
    }
  }

  lemma {:induction false} AppendNewFresh(acc: seq<Tag>, inherited: seq<Tag>)
    ensures FreshAfter(AppendNew(acc, inherited), |acc|)
    decreases |inherited|
  {
    if inherited != [] {
      var init := inherited[..|inherited| - 1];
      var t := inherited[|inherited| - 1];
      AppendNewFresh(acc, init);
      var r0 := AppendNew(acc, init);
      var r := AppendNew(acc, inherited);
      if t !in r0 {
        assert r == r0 + [t];
        forall k | |acc| <= k < |r| ensures r[k] !in r[..k] {
          if k < |r0| {
            assert r[k] == r0[k] && r[..k] == r0[..k];
          } else {
            assert k == |r0| && r[k] == t && r[..k] == r0;
          }
        }
      }
    }
  }

  lemma {:induction false} AppendNewOrder(acc: seq<Tag>, inherited: seq<Tag>)
    ensures var r := AppendNew(acc, inherited);
      |r| >= |acc| && Subsequence(r[|acc|..], inherited)
    decreases |inherited|
  {
    AppendNewPrefix(acc, inherited);
    if inherited != [] {
      var init := inherited[..|inherited| - 1];
      var t := inherited[|inherited| - 1];
      AppendNewOrder(acc, init);
      AppendNewPrefix(acc, init);
      var r0 := AppendNew(acc, init);
      var r := AppendNew(acc, inherited);
      assert inherited == init + [t];
      SubsequenceExtend(r0[|acc|..], init, t);
      if t !in r0 {
        var tail := r[|acc|..];
        assert tail == r0[|acc|..] + [t];
        assert tail[..|tail| - 1] == r0[|acc|..];
        assert inherited[..|inherited| - 1] == init;
      }
    }
  }

  lemma {:induction false} SubsequenceExtend(xs: seq<Tag>, ys: seq<Tag>, y: Tag)
    requires Subsequence(xs, ys)
    ensures Subsequence(xs, ys + [y])
    decreases |ys|, 1
  {
    var ys' := ys + [y];
    assert ys'[..|ys'| - 1] == ys;
    if xs != [] && xs[|xs| - 1] == y {
      SubsequenceDropLast(xs, ys);
    }
  }

  lemma {:induction false} SubsequenceDropLast(xs: seq<Tag>, ys: seq<Tag>)
    requires xs != [] && Subsequence(xs, ys)
    ensures Subsequence(xs[..|xs| - 1], ys)
    decreases |ys|, 0
  {
    var xs' := xs[..|xs| - 1];
    var ys' := ys[..|ys| - 1];
    assert ys' + [ys[|ys| - 1]] == ys;
    if xs[|xs| - 1] == ys[|ys| - 1] {
      SubsequenceExtend(xs', ys', ys[|ys| - 1]);
    } else {
      SubsequenceDropLast(xs, ys');
      SubsequenceExtend(xs', ys', ys[|ys| - 1]);
    }
  }

  /**
   * What the merge promises when both lists are non-empty: the host's tags
   * first and unchanged, then inherited tags in their own order, each one a
   * (tag, value) pair not present earlier in the list, and every inherited
   * pair present in the result.
   */
  lemma MergeKeepsOrderWithoutNewDuplicates(tags: seq<Tag>, inherited: seq<Tag>)
    requires tags != [] && inherited != []
    ensures var r := MergedTags(tags, inherited);
      && |r| >= |tags| && r[..|tags|] == tags
      && (forall t :: t in inherited ==> t in r)
      && (forall t :: t in r ==> t in tags || t in inherited)
      && (forall k :: |tags| <= k < |r| ==> r[k] !in r[..k])
      && Subsequence(r[|tags|..], inherited)
  {
    AppendNewPrefix(tags, inherited);
    AppendNewCovers(tags, inherited);
    AppendNewFresh(tags, inherited);
    AppendNewOrder(tags, inherited);
  }

  /** Distinct host tags stay distinct after the merge. */
  lemma MergeOfDistinctIsDistinct(tags: seq<Tag>, inherited: seq<Tag>)
    requires tags != [] && inherited != [] && Distinct(tags)
    ensures Distinct(MergedTags(tags, inherited))
  {
    var r := MergedTags(tags, inherited);
    AppendNewPrefix(tags, inherited);
    AppendNewFresh(tags, inherited);
    forall i, j | 0 <= i < j < |r| ensures r[i] != r[j] {
      if j < |tags| {
        assert r[..|tags|][i] == tags[i] && r[..|tags|][j] == tags[j];
      } else {
        assert r[..j][i] == r[i];
      }
    }
  }

  /** Without inherited tags, or without host tags, the other list is taken as it is (no de-duplication). */
  lemma MergeWithEmptySide(tags: seq<Tag>, inherited: seq<Tag>)
    ensures inherited == [] ==> MergedTags(tags, inherited) == tags
    ensures tags == [] ==> MergedTags(tags, inherited) == inherited
  {
  }
}
