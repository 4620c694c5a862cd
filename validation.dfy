/**
 * `checkInput` of the host-list page controller: after the framework's field
 * rules it checks the shape of every tag filter row and that every severity
 * is one of 0..5; a failed check sets a fatal response.
 */
module InputValidation {
  import opened HostTypes

  /** A request value: a string, or anything else (a nested array). */
  datatype Scalar = Str(s: string) | NotString

  /** A tag filter row as received: its keys and values. */
  type TagEntry = map<string, Scalar>

  /**
   * The request as `checkInput` sees it. `baseValid` is the outcome of the
   * framework's declarative field rules, which are not part of this model;
   * `None` is an absent field.
   */
  datatype Request = Request(baseValid: bool, tags: Option<seq<TagEntry>>, severities: Option<seq<Scalar>>)

  datatype Response = NoResponse | Fatal

  /** A well-formed tag row: exactly three keys, `tag`, `value` and `operator`, all strings. */
  predicate WellFormedTag(e: TagEntry) {
    && |e.Keys| == 3
    && "tag" in e && e["tag"].Str?
    && "value" in e && e["value"].Str?
    && "operator" in e && e["operator"].Str?
  }

  /**
   * `array_diff` compares string forms: an element passes when its string
   * form is one of the severities 0..5.
   */
  predicate SeverityInRange(v: Scalar) {
    v.Str? && v.s in {"0", "1", "2", "3", "4", "5"}
  }

  predicate TagsAccepted(r: Request) {
    r.tags.None? || forall k :: 0 <= k < |r.tags.value| ==> WellFormedTag(r.tags.value[k])
  }

  predicate SeveritiesAccepted(r: Request) {
    r.severities.None? || forall k :: 0 <= k < |r.severities.value| ==> SeverityInRange(r.severities.value[k])
  }

  /** The verdict of `checkInput`. */
  predicate InputAccepted(r: Request) {
    r.baseValid && TagsAccepted(r) && SeveritiesAccepted(r)
  }

  /** The controller's state that `checkInput` touches: its response. */
  class HostViewController {
    var response: Response

    constructor ()
      ensures response == NoResponse
    {
      response := NoResponse;
    }

    /** `checkInput`: the flag threaded through the tag loop and the severity check. */
    method CheckInput(r: Request) returns (ret: bool)
      modifies this
      ensures ret == InputAccepted(r)
      ensures !ret ==> response == Fatal
      ensures ret ==> response == old(response)
    {
      ret := r.baseValid;

      if ret && r.tags.Some? {
        var rows := r.tags.value;
        var i: nat := 0;
        while i < |rows|
          invariant i <= |rows|
          invariant ret
          invariant forall k :: 0 <= k < i ==> WellFormedTag(rows[k])
        {
          var e := rows[i];
          if |e.Keys| != 3
            || !("tag" in e) || !e["tag"].Str?
            || !("value" in e) || !e["value"].Str?
            || !("operator" in e) || !e["operator"].Str?
          {
            ret := false;
            break;
          }
          i := i + 1;
        }
        assert ret ==> i == |rows|;
      }

      if ret && r.severities.Some? {
        var values := r.severities.value;
        ret := forall k :: 0 <= k < |values| ==> SeverityInRange(values[k]);
      }

      if !ret {
        response := Fatal;
      }
    }
  }

  // ---------------------------------------------------------------------
  // Properties of the verdict.

  /** When the framework rules fail, nothing else is looked at. */
  lemma BaseFailureRejects(r: Request)
    requires !r.baseValid
    ensures !InputAccepted(r)
  {
  }

  /** One malformed tag row rejects the request, wherever it is in the list. */
  lemma BadTagRowRejects(r: Request, k: nat)
    requires r.tags.Some? && k < |r.tags.value| && !WellFormedTag(r.tags.value[k])
    ensures !InputAccepted(r)
  {
  }

  /** The verdict does not depend on the order of the tag rows or of the severities. */
  lemma VerdictIgnoresOrder(r: Request, tags: seq<TagEntry>, severities: seq<Scalar>)
    requires r.tags.Some? && multiset(tags) == multiset(r.tags.value)
    requires r.severities.Some? && multiset(severities) == multiset(r.severities.value)
    ensures InputAccepted(r.(tags := Some(tags), severities := Some(severities))) == InputAccepted(r)
  {
    var r' := r.(tags := Some(tags), severities := Some(severities));
    forall k | 0 <= k < |tags| ensures tags[k] in r.tags.value {
      assert tags[k] in multiset(tags);
    }
    forall k | 0 <= k < |r.tags.value| ensures r.tags.value[k] in tags {
      assert r.tags.value[k] in multiset(r.tags.value);
    }
    forall k | 0 <= k < |severities| ensures severities[k] in r.severities.value {
      assert severities[k] in multiset(severities);
    }
    forall k | 0 <= k < |r.severities.value| ensures r.severities.value[k] in severities {
      assert r.severities.value[k] in multiset(r.severities.value);
    }
  }

  /** An empty severity list passes; a severity outside 0..5, such as "6" or "-1", does not. */
  lemma SeverityBoundaries(r: Request)
    requires r.baseValid && TagsAccepted(r)
    ensures r.severities == Some([]) ==> InputAccepted(r)
    ensures r.severities == Some([Str("6")]) ==> !InputAccepted(r)
    ensures r.severities == Some([Str("-1")]) ==> !InputAccepted(r)
    ensures r.severities == Some([Str("0"), Str("5")]) ==> InputAccepted(r)
  {
    if r.severities == Some([Str("6")]) {
      assert r.severities.value[0] == Str("6");
      assert forall t :: t in {"0", "1", "2", "3", "4", "5"} ==> t[0] != '6';
    }
    if r.severities == Some([Str("-1")]) {
      assert r.severities.value[0] == Str("-1");
      assert forall t :: t in {"0", "1", "2", "3", "4", "5"} ==> |t| == 1;
    }
  }

  /** A tag row with a fourth key is rejected even when the three expected keys are strings. */
  lemma ExtraKeyRejected(e: TagEntry, extra: string)
    requires WellFormedTag(e) && extra !in e
    ensures !WellFormedTag(e[extra := Str("")])
  {
    assert e[extra := Str("")].Keys == e.Keys + {extra};
  }
}
