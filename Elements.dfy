// The element objects shared by the state tree, the dropzones and the palette.
// In the JavaScript source an element is a plain object; here it is a record whose
// optional keys are `None` when the object does not have them.

module Elements {

  datatype Option<T> = None | Some(value: T)

  /** The `fields` and `initialElements` keys of an element: missing, or an array. */
  datatype Children = Absent | Present(items: seq<Element>)

  /**
   * One element (a node of the tree, an entry of a dropzone, a palette item).
   * `kind` is the `type` key. The function-valued keys (updateState, removeElement,
   * updateElement, flushDroppedElements, checkAndRemoveElement) and the display keys
   * (showBasicContent, allowHorizontal) are not modelled.
   */
  datatype Element = Element(
    id: Option<string>,
    name: Option<string>,
    kind: Option<string>,
    payload: Option<string>,
    key: Option<string>,
    dropzoneID: Option<string>,
    parentID: Option<string>,
    canvasID: Option<string>,
    remove: bool,
    initialElements: Children,
    fields: Children)

  /** An element with only an `id` key. */
  function Plain(id: string): (e: Element)
    ensures e.id == Some(id) && e.fields.Absent? && !e.remove
  {
    Element(Some(id), None, None, None, None, None, None, None, false, Absent, Absent)
  }

  /** JavaScript truthiness of an optional string key: a missing key and "" are falsy. */
  predicate Truthy(s: Option<string>)
  {
    s.Some? && s.value != ""
  }

  /** The ids of a list of elements, position by position. */
  function Ids(s: seq<Element>): (r: seq<Option<string>>)
    ensures |r| == |s|
    ensures forall j :: 0 <= j < |s| ==> r[j] == s[j].id
  {
    if s == [] then [] else [s[0].id] + Ids(s[1..])
  }

  lemma IdsConcat(a: seq<Element>, b: seq<Element>)
    ensures Ids(a + b) == Ids(a) + Ids(b)
  {
    assert |Ids(a + b)| == |Ids(a) + Ids(b)|;
    forall j | 0 <= j < |a + b|
      ensures Ids(a + b)[j] == (Ids(a) + Ids(b))[j]
    {
    }
  }

  /** How many elements carry this id: `s.filter(e => e.id === id).length`. */
  function CountId(s: seq<Element>, id: Option<string>): (r: nat)
    ensures r <= |s|
    ensures r == 0 <==> forall k :: 0 <= k < |s| ==> s[k].id != id
  {
    if s == [] then 0
    else CountId(s[..|s| - 1], id) + (if s[|s| - 1].id == id then 1 else 0)
  }

  lemma {:induction false} CountIdConcat(a: seq<Element>, b: seq<Element>, id: Option<string>)
    ensures CountId(a + b, id) == CountId(a, id) + CountId(b, id)
  {
    if b != [] {
      assert (a + b)[..|a + b| - 1] == a + b[..|b| - 1];
      CountIdConcat(a, b[..|b| - 1], id);
    } else {
      assert a + b == a;
    }
  }

  /** Two elements sharing an id make that id's count at least two. */
  lemma CountIdTwice(s: seq<Element>, i: nat, j: nat)
    requires i < j < |s| && s[i].id == s[j].id
    ensures CountId(s, s[i].id) >= 2
  {
    var a, b := s[..j], s[j..];
    assert s == a + b;
    CountIdConcat(a, b, s[i].id);
    assert a[i].id == s[i].id;
    assert b[0].id == s[i].id;
  }

  /** In a list without repeated ids, every element's id is counted once. */
  lemma {:induction false} CountIdUnique(s: seq<Element>, i: nat)
    requires UniqueIds(s) && i < |s|
    ensures CountId(s, s[i].id) == 1
  {
    var init := s[..|s| - 1];
    assert UniqueIds(init);
    if i == |s| - 1 {
      assert forall k :: 0 <= k < |init| ==> init[k].id != s[i].id;
    } else {
      assert init[i] == s[i];
      CountIdUnique(init, i);
    }
  }

  /**
   * The index a `filter` callback that records every match leaves behind: the last
   * index holding the id, with `None` standing for -1.
   */
  function LastIndexOfId(s: seq<Element>, id: Option<string>): (r: Option<nat>)
    ensures r.Some? ==> r.value < |s| && s[r.value].id == id
    ensures r.Some? ==> forall j :: r.value < j < |s| ==> s[j].id != id
    ensures r.None? <==> forall k :: 0 <= k < |s| ==> s[k].id != id
  {
    if s == [] then None
    else if s[|s| - 1].id == id then Some(|s| - 1)
    else LastIndexOfId(s[..|s| - 1], id)
  }

  /** No two elements of the list share an id. */
  predicate UniqueIds(s: seq<Element>)
  {
    forall i, j :: 0 <= i < j < |s| ==> s[i].id != s[j].id
  }

  /** `s.findIndex(e => e.id === id)`, with `None` standing for -1. */
  function IndexOfId(s: seq<Element>, id: Option<string>): (r: Option<nat>)
    ensures r.Some? ==> r.value < |s| && s[r.value].id == id
    ensures r.Some? ==> forall j :: 0 <= j < r.value ==> s[j].id != id
    ensures r.None? <==> id !in Ids(s)
  {
    if s == [] then None
    else if s[0].id == id then Some(0)
    else match IndexOfId(s[1..], id)
      case None => None
      case Some(k) => Some(k + 1)
  }

  /** Two lists with the same ids position by position answer every id search alike. */
  lemma {:induction false} IndexOfIdSameIds(a: seq<Element>, b: seq<Element>, id: Option<string>)
    requires Ids(a) == Ids(b)
    ensures IndexOfId(a, id) == IndexOfId(b, id)
  {
    if a != [] {
      assert a[0].id == Ids(a)[0] == Ids(b)[0] == b[0].id;
      assert Ids(a[1..]) == Ids(a)[1..] == Ids(b)[1..] == Ids(b[1..]);
      IndexOfIdSameIds(a[1..], b[1..], id);
    }
  }

  /** In a list without repeated ids, the search for an element's id finds that element. */
  lemma UniqueIdsIndex(s: seq<Element>, j: nat)
    requires UniqueIds(s) && j < |s|
    ensures IndexOfId(s, s[j].id) == Some(j)
  {
    var r := IndexOfId(s, s[j].id);
    assert s[j].id in Ids(s);
  }

  lemma TakeOneMore<T>(s: seq<T>, k: nat)
    requires k < |s|
    ensures s[..k + 1] == s[..k] + [s[k]]
  {
  }

  lemma SetThenSplit<T>(r: seq<T>, i: nat, x: T)
    requires i < |r|
    ensures r[i := x][..i + 1] == r[..i] + [x]
    ensures r[i := x][i + 1..] == r[i + 1..]
    ensures r[i := x] == r[i := x][..i + 1] + r[i + 1..]
  {
  }
}
