/** `get_dict_key_with_value_containing_target`: find the one element of a
    menu group whose texts include a given string. The dictionary it searches
    is built with `enumerate`, so its keys are 0, 1, 2, ... in insertion order
    and it is modelled as the sequence of each element's texts. */
module ElementLookup {
  import opened Wrappers
  import opened CustomExceptions

  /** Indices `k >= from` whose texts contain `target`, in increasing order:
      the list comprehension over `dictionary.items()`. */
  function HitsFrom(texts: seq<seq<string>>, target: string, from: nat): (hits: seq<nat>)
    requires from <= |texts|
    ensures forall n :: 0 <= n < |hits| ==> from <= hits[n] < |texts| && target in texts[hits[n]]
    ensures forall n, m :: 0 <= n < m < |hits| ==> hits[n] < hits[m]
    ensures forall k :: from <= k < |texts| && target in texts[k] ==> k in hits
    decreases |texts| - from
  {
    if from == |texts| then []
    else if target in texts[from] then [from] + HitsFrom(texts, target, from + 1)
    else HitsFrom(texts, target, from + 1)
  }

  /** The lookup: more than one hit raises `UnexpectedResultError`, none
      raises `OutdatedError`, and one hit gives its key. */
  function GetKeyWithValueContainingTarget(texts: seq<seq<string>>, target: string): (r: Result<nat, Error>)
    ensures r.Ok? ==> r.value < |texts| && target in texts[r.value]
  {
    var hits := HitsFrom(texts, target, 0);
    if |hits| > 1 then Err(UnexpectedResultError)
    else if |hits| < 1 then Err(OutdatedError)
    else Ok(hits[0])
  }

  /** The lookup succeeds exactly when one key alone holds `target`, and
      then it gives that key. */
  lemma LookupFound(texts: seq<seq<string>>, target: string)
    ensures GetKeyWithValueContainingTarget(texts, target).Ok? <==>
              exists k :: 0 <= k < |texts| && target in texts[k] && Unique(texts, target, k)
    ensures GetKeyWithValueContainingTarget(texts, target).Ok? ==>
              Unique(texts, target, GetKeyWithValueContainingTarget(texts, target).value)
  {
    SingleHit(texts, target, HitsFrom(texts, target, 0));
  }

  /** The lookup raises `OutdatedError` exactly when no key holds
      `target`. */
  lemma LookupOutdated(texts: seq<seq<string>>, target: string)
    ensures GetKeyWithValueContainingTarget(texts, target) == Err(OutdatedError) <==>
              forall k :: 0 <= k < |texts| ==> target !in texts[k]
  {
    NoHits(texts, target, HitsFrom(texts, target, 0));
  }

  /** The lookup raises `UnexpectedResultError` exactly when two keys hold
      `target`. */
  lemma LookupAmbiguous(texts: seq<seq<string>>, target: string)
    ensures GetKeyWithValueContainingTarget(texts, target) == Err(UnexpectedResultError) <==>
              exists k, j :: 0 <= k < j < |texts| && target in texts[k] && target in texts[j]
  {
    ManyHits(texts, target, HitsFrom(texts, target, 0));
  }

  /** No key other than `k` has `target` among its texts. */
  predicate Unique(texts: seq<seq<string>>, target: string, k: nat) {
    forall j :: 0 <= j < |texts| && j != k ==> target !in texts[j]
  }

  /** No hit exactly when no key holds `target`. */
  lemma NoHits(texts: seq<seq<string>>, target: string, hits: seq<nat>)
    requires hits == HitsFrom(texts, target, 0)
    ensures |hits| == 0 <==> forall k :: 0 <= k < |texts| ==> target !in texts[k]
  {
    if |hits| > 0 {
      assert target in texts[hits[0]];
    }
  }

  /** Two hits or more exactly when two keys hold `target`. */
  lemma ManyHits(texts: seq<seq<string>>, target: string, hits: seq<nat>)
    requires hits == HitsFrom(texts, target, 0)
    ensures |hits| > 1 <==> exists k, j :: 0 <= k < j < |texts| && target in texts[k] && target in texts[j]
  {
    if |hits| > 1 {
      assert hits[0] < hits[1];
      assert target in texts[hits[0]] && target in texts[hits[1]];
    }
    if exists k, j :: 0 <= k < j < |texts| && target in texts[k] && target in texts[j] {
      var k, j :| 0 <= k < j < |texts| && target in texts[k] && target in texts[j];
      TwoMembers(hits, k, j);
    }
  }

  /** A sequence holding two different values has at least two elements. */
  lemma TwoMembers(hits: seq<nat>, k: nat, j: nat)
    requires k in hits && j in hits && k != j
    ensures |hits| > 1
  {
  }

  /** One hit exactly when one key alone holds `target`, and then the hit
      is that key. */
  lemma SingleHit(texts: seq<seq<string>>, target: string, hits: seq<nat>)
    requires hits == HitsFrom(texts, target, 0)
    ensures |hits| == 1 <==> exists k :: 0 <= k < |texts| && target in texts[k] && Unique(texts, target, k)
    ensures |hits| == 1 ==> Unique(texts, target, hits[0])
  {
    if |hits| == 1 {
      assert target in texts[hits[0]];
      forall j | 0 <= j < |texts| && j != hits[0] ensures target !in texts[j] {
      }
    } else if |hits| > 1 {
      assert hits[0] < hits[1] && target in texts[hits[0]] && target in texts[hits[1]];
    }
  }

  /** The menu lookup of the spider's start page, on a small menu: one
      element holds the target. */
  lemma LookupFindsOne(texts: seq<seq<string>>)
    requires texts == [["have"], ["byg", "nyhed"], ["v\U{E6}rkt\U{F8}j"]]
    ensures GetKeyWithValueContainingTarget(texts, "byg") == Ok(1)
  {
    assert "byg" in texts[1];
    assert "byg" !in texts[0] && "byg" !in texts[2];
    LookupFound(texts, "byg");
  }

  /** Two elements holding the target is an unexpected result. */
  lemma LookupFindsTwo(texts: seq<seq<string>>)
    requires texts == [["byg"], ["have"], ["byg"]]
    ensures GetKeyWithValueContainingTarget(texts, "byg") == Err(UnexpectedResultError)
  {
    assert "byg" in texts[0] && "byg" in texts[2];
    LookupAmbiguous(texts, "byg");
  }

  /** A menu without the target, the empty one included, is outdated. */
  lemma LookupFindsNone(texts: seq<seq<string>>)
    requires texts == [["have"], ["el"]] || texts == []
    ensures GetKeyWithValueContainingTarget(texts, "byg") == Err(OutdatedError)
  {
    LookupOutdated(texts, "byg");
  }
}
