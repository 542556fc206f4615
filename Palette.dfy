// The custom `paletteElements` validator of src/components/Palette/Palette.js:
// every palette item needs an id, and no two items may share one.

module Palette {
  import opened Elements

  const MissingId: string := "`id` is required in all palette element"
  const DuplicateId: string := "`id` of palette element should be unique"

  /** What the validator returns: `true`, or `new Error(isError)`. */
  datatype Verdict = Accepted | Rejected(message: string)

  /**
   * What the visit of `items[k]` writes into `isError`, if anything: the duplicate
   * check runs after the missing-id check and so overwrites it.
   */
  function Complaint(items: seq<Element>, k: nat): (r: Option<string>)
    requires k < |items|
    ensures r.None? <==> Truthy(items[k].id) && CountId(items, items[k].id) <= 1
  {
    if CountId(items, items[k].id) > 1 then Some(DuplicateId)
    else if !Truthy(items[k].id) then Some(MissingId)
    else None
  }

  /** `isError` once the `forEach` has visited `items[..k]`, `None` standing for `false`. */
  function ErrorAfter(items: seq<Element>, k: nat): (r: Option<string>)
    requires k <= |items|
    ensures r.Some? ==> r.value == MissingId || r.value == DuplicateId
  {
    if k == 0 then None
    else match Complaint(items, k - 1)
      case Some(m) => Some(m)
      case None => ErrorAfter(items, k - 1)
  }

  /** The validator's answer for the whole list. */
  function Validate(items: seq<Element>): (r: Verdict)
    ensures r.Rejected? ==> r.message == MissingId || r.message == DuplicateId
  {
    match ErrorAfter(items, |items|)
    case None => Accepted
    case Some(m) => Rejected(m)
  }

  /** The validator: one pass over the items, each complaint overwriting the last. */
  method ValidatePaletteElements(propValue: seq<Element>) returns (r: Verdict)
    ensures r == Validate(propValue)
  {
    var isError: Option<string> := None;
    for k := 0 to |propValue|
      invariant isError == ErrorAfter(propValue, k)
    {
      var item := propValue[k];
      if !Truthy(item.id) {
        isError := Some(MissingId);
      }
      if CountId(propValue, item.id) > 1 {
        isError := Some(DuplicateId);
      }
    }
    r := if isError.Some? then Rejected(isError.value) else Accepted;
  }

  /** No complaint has been written after `k` visits exactly when none of them complained. */
  lemma {:induction false} ErrorAfterNone(items: seq<Element>, k: nat)
    requires k <= |items|
    ensures ErrorAfter(items, k).None? <==> forall j :: 0 <= j < k ==> Complaint(items, j).None?
  {
    if k > 0 {
      ErrorAfterNone(items, k - 1);
    }
  }

  /** Every item counted at most once is the same as no two items sharing an id. */
  lemma CountsAtMostOne(items: seq<Element>)
    ensures (forall k :: 0 <= k < |items| ==> CountId(items, items[k].id) <= 1) <==> UniqueIds(items)
  {
    if UniqueIds(items) {
      forall k | 0 <= k < |items| ensures CountId(items, items[k].id) <= 1 {
        CountIdUnique(items, k);
      }
    } else {
      var i, j :| 0 <= i < j < |items| && items[i].id == items[j].id;
      CountIdTwice(items, i, j);
    }
  }

  /** The validator accepts exactly the lists where every item has an id and no id repeats. */
  lemma ValidateAccepts(items: seq<Element>)
    ensures Validate(items) == Accepted <==>
      (forall k :: 0 <= k < |items| ==> Truthy(items[k].id)) && UniqueIds(items)
  {
    ErrorAfterNone(items, |items|);
    CountsAtMostOne(items);
    if forall j :: 0 <= j < |items| ==> Complaint(items, j).None? {
      forall k | 0 <= k < |items| ensures Truthy(items[k].id) && CountId(items, items[k].id) <= 1 {
        assert Complaint(items, k).None?;
      }
    } else {
      var j :| 0 <= j < |items| && Complaint(items, j).Some?;
      assert !Truthy(items[j].id) || CountId(items, items[j].id) > 1;
    }
  }

  /** The message comes from the last item that complains, whatever came before it. */
  lemma {:induction false} LastComplaintWins(items: seq<Element>, k: nat, n: nat)
    requires k < n <= |items| && Complaint(items, k).Some?
    requires forall j :: k < j < n ==> Complaint(items, j).None?
    ensures ErrorAfter(items, n) == Complaint(items, k)
  {
    if n - 1 != k {
      LastComplaintWins(items, k, n - 1);
    }
  }

  /** Two items sharing "a" followed by an item without an id: the missing id is reported. */
  lemma MissingOverwritesDuplicate()
    ensures var nameless := Plain("a").(id := None);
      Validate([Plain("a"), Plain("a"), nameless]) == Rejected(MissingId)
  {
    var nameless := Plain("a").(id := None);
    var items := [Plain("a"), Plain("a"), nameless];
    assert items[..2] == [Plain("a"), Plain("a")] && items[..2][..1] == [Plain("a")];
    assert CountId(items, None) == 1 by {
      assert CountId(items[..2], None) == 0;
    }
    LastComplaintWins(items, 2, 3);
  }
}
