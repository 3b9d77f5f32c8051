/** `get_price`: of the texts a price query finds, keep those that convert to
    a number, in their original order, and pick the price from them. The
    selector query itself is replaced by the list of texts it returns. */
module Price {
  import opened Wrappers
  import LocaleNumber

  /** Index `i` is the first candidate that converts. */
  predicate FirstConverting(convert: string -> Option<real>, candidates: seq<string>, i: nat) {
    && i < |candidates| && convert(candidates[i]).Some?
    && forall j :: 0 <= j < i ==> convert(candidates[j]).None?
  }

  /** Index `i` is the only candidate that converts. */
  predicate OnlyConverting(convert: string -> Option<real>, candidates: seq<string>, i: nat) {
    && i < |candidates| && convert(candidates[i]).Some?
    && forall j :: 0 <= j < |candidates| && j != i ==> convert(candidates[j]).None?
  }

  /** `prices_with_float_format`: the values of the candidates that
      `convert` accepts, in order. */
  function ConvertAll(convert: string -> Option<real>, candidates: seq<string>): (prices: seq<real>)
    ensures |prices| <= |candidates|
  {
    if candidates == [] then []
    else
      match convert(candidates[0])
      case None => ConvertAll(convert, candidates[1..])
      case Some(v) => [v] + ConvertAll(convert, candidates[1..])
  }

  /** Filtering distributes over concatenation: it keeps the order. */
  lemma {:induction false} ConvertAllConcat(convert: string -> Option<real>, a: seq<string>, b: seq<string>)
    ensures ConvertAll(convert, a + b) == ConvertAll(convert, a) + ConvertAll(convert, b)
  {
    if a == [] {
      assert a + b == b;
    } else {
      assert (a + b)[0] == a[0];
      assert (a + b)[1..] == a[1..] + b;
      ConvertAllConcat(convert, a[1..], b);
    }
  }

  /** Nothing is kept exactly when no candidate converts. */
  lemma {:induction false} ConvertAllEmpty(convert: string -> Option<real>, candidates: seq<string>)
    ensures ConvertAll(convert, candidates) == [] <==> forall i :: 0 <= i < |candidates| ==> convert(candidates[i]).None?
  {
    if candidates != [] {
      var rest := candidates[1..];
      ConvertAllEmpty(convert, rest);
      if convert(candidates[0]).None? {
        forall i | 1 <= i < |candidates| && convert(rest[i - 1]).None?
          ensures convert(candidates[i]).None?
        {
          assert candidates[i] == rest[i - 1];
        }
      }
    }
  }

  /** The first price kept is the value of the first candidate that
      converts. */
  lemma {:induction false} ConvertAllHead(convert: string -> Option<real>, candidates: seq<string>)
    requires ConvertAll(convert, candidates) != []
    ensures exists i: nat :: FirstConverting(convert, candidates, i)
                        && Some(ConvertAll(convert, candidates)[0]) == convert(candidates[i])
  {
    if convert(candidates[0]).Some? {
      assert FirstConverting(convert, candidates, 0);
    } else {
      var rest := candidates[1..];
      ConvertAllHead(convert, rest);
      var i: nat :| FirstConverting(convert, rest, i) && Some(ConvertAll(convert, rest)[0]) == convert(rest[i]);
      assert candidates[i + 1] == rest[i];
      forall j | 1 <= j < i + 1 ensures convert(candidates[j]).None? {
        assert candidates[j] == rest[j - 1];
      }
      assert FirstConverting(convert, candidates, i + 1);
    }
  }

  /** Exactly one price is kept exactly when exactly one candidate converts,
      and it is that candidate's value. */
  lemma {:induction false} ConvertAllSingle(convert: string -> Option<real>, candidates: seq<string>)
    ensures |ConvertAll(convert, candidates)| == 1 <==> exists i: nat :: OnlyConverting(convert, candidates, i)
    ensures forall i: nat :: OnlyConverting(convert, candidates, i) ==>
              [convert(candidates[i]).value] == ConvertAll(convert, candidates)
  {
    if candidates != [] {
      var rest := candidates[1..];
      ConvertAllSingle(convert, rest);
      ConvertAllEmpty(convert, rest);
      if convert(candidates[0]).Some? {
        if |ConvertAll(convert, candidates)| == 1 {
          forall j | 0 <= j < |candidates| && j != 0 ensures convert(candidates[j]).None? {
            assert candidates[j] == rest[j - 1];
          }
          assert OnlyConverting(convert, candidates, 0);
        }
        forall i: nat | OnlyConverting(convert, candidates, i)
          ensures [convert(candidates[i]).value] == ConvertAll(convert, candidates)
        {
          assert i == 0;
          forall k | 0 <= k < |rest| ensures convert(rest[k]).None? {
            assert rest[k] == candidates[k + 1];
          }
        }
      } else {
        forall i: nat | OnlyConverting(convert, candidates, i) ensures OnlyConverting(convert, rest, i - 1) {
          forall j | 0 <= j < |rest| && j != i - 1 ensures convert(rest[j]).None? {
            assert rest[j] == candidates[j + 1];
          }
        }
        forall i: nat | OnlyConverting(convert, rest, i) ensures OnlyConverting(convert, candidates, i + 1) {
          forall j | 0 <= j < |candidates| && j != i + 1 ensures convert(candidates[j]).None? {
            if j > 0 {
              assert candidates[j] == rest[j - 1];
            }
          }
        }
      }
    }
  }

  /** How `get_price` ends: it returns a price or nothing, or its `assert`
      fails. */
  datatype Outcome = Returned(price: Option<real>) | AssertionFailed

  /** `get_price` over the texts its query found, with `convert` standing
      for `try_to_convert_to_float`. */
  function GetPriceWith(convert: string -> Option<real>, candidates: seq<string>, allowToBeMissing: bool): (r: Outcome)
    ensures allowToBeMissing ==> r.Returned?
    ensures !allowToBeMissing ==> r != Returned(None)
  {
    var prices := ConvertAll(convert, candidates);
    if allowToBeMissing then Returned(if |prices| > 0 then Some(prices[0]) else None)
    else if |prices| == 1 then Returned(Some(prices[0]))
    else AssertionFailed
  }

  /** `get_price`, converting with `try_to_convert_to_float`. */
  function GetPrice(candidates: seq<string>, allowToBeMissing: bool): (r: Outcome)
    ensures allowToBeMissing ==> r.Returned?
    ensures !allowToBeMissing ==> r != Returned(None)
  {
    GetPriceWith(LocaleNumber.TryToConvertToFloat, candidates, allowToBeMissing)
  }

  /** When the price may be missing, `get_price` never fails: it returns the
      value of the first candidate that converts, or nothing when none
      does. */
  lemma GetPriceLenient(convert: string -> Option<real>, candidates: seq<string>)
    ensures GetPriceWith(convert, candidates, true).Returned?
    ensures GetPriceWith(convert, candidates, true).price.None? <==>
              forall i :: 0 <= i < |candidates| ==> convert(candidates[i]).None?
    ensures forall i: nat :: FirstConverting(convert, candidates, i) ==>
              GetPriceWith(convert, candidates, true).price == convert(candidates[i])
  {
    ConvertAllEmpty(convert, candidates);
    if ConvertAll(convert, candidates) != [] {
      ConvertAllHead(convert, candidates);
      var first: nat :| FirstConverting(convert, candidates, first)
                   && Some(ConvertAll(convert, candidates)[0]) == convert(candidates[first]);
      forall i: nat | FirstConverting(convert, candidates, i)
        ensures GetPriceWith(convert, candidates, true).price == convert(candidates[i])
      {
        FirstConvertingUnique(convert, candidates, first, i);
      }
    }
  }

  /** There is only one first candidate that converts. */
  lemma FirstConvertingUnique(convert: string -> Option<real>, candidates: seq<string>, i: nat, j: nat)
    requires FirstConverting(convert, candidates, i) && FirstConverting(convert, candidates, j)
    ensures i == j
  {
  }

  /** When the price must be there, `get_price` returns a price exactly when
      one and only one candidate converts, and that price is its value; it
      never returns nothing, and otherwise its `assert` fails. */
  lemma GetPriceStrict(convert: string -> Option<real>, candidates: seq<string>)
    ensures GetPriceWith(convert, candidates, false) != Returned(None)
    ensures GetPriceWith(convert, candidates, false).Returned? <==> exists i: nat :: OnlyConverting(convert, candidates, i)
    ensures forall i: nat :: OnlyConverting(convert, candidates, i) ==>
              GetPriceWith(convert, candidates, false) == Returned(convert(candidates[i]))
  {
    ConvertAllSingle(convert, candidates);
  }

  /** Of a text that converts and one that does not, the first is the only
      one that converts. */
  lemma NumberBeforeUnit(convert: string -> Option<real>, number: string, unitLabel: string)
    requires convert(number).Some? && convert(unitLabel).None?
    ensures OnlyConverting(convert, [number, unitLabel], 0)
    ensures FirstConverting(convert, [number, unitLabel], 0)
  {
  }

  /** Of a number and a unit label, the number is the price when the price
      must be there. */
  lemma GetPriceExampleStrict(number: string, unitLabel: string)
    requires number == "1.234,56" && unitLabel == "kr./stk"
    ensures GetPrice([number, unitLabel], false) == Returned(Some(1234.56))
  {
    LocaleNumber.ConvertThousands(number);
    LocaleNumber.ConvertRejectsLetters(unitLabel, 0);
    NumberBeforeUnit(LocaleNumber.TryToConvertToFloat, number, unitLabel);
    GetPriceStrict(LocaleNumber.TryToConvertToFloat, [number, unitLabel]);
  }

  /** The same number is the price when the price may be missing. */
  lemma GetPriceExampleLenient(number: string, unitLabel: string)
    requires number == "1.234,56" && unitLabel == "kr./stk"
    ensures GetPrice([number, unitLabel], true) == Returned(Some(1234.56))
  {
    LocaleNumber.ConvertThousands(number);
    LocaleNumber.ConvertRejectsLetters(unitLabel, 0);
    NumberBeforeUnit(LocaleNumber.TryToConvertToFloat, number, unitLabel);
    GetPriceLenient(LocaleNumber.TryToConvertToFloat, [number, unitLabel]);
  }
}
