/** The bookmark list shared by scripts/script.js and scripts/history.js:
    a JSON array of anime ids under the `bookmarks` key, toggled by
    append-or-remove-first-occurrence. */
module Bookmarks {
  import opened Js

  const Key: string := "bookmarks"

  /** `bookmarks.indexOf(id)`: the first position holding `id`, or -1. */
  function IndexOf(list: seq<string>, id: string): (i: int)
    ensures -1 <= i < |list|
    ensures i == -1 <==> id !in list
    ensures 0 <= i ==> list[i] == id && id !in list[..i]
  {
    if |list| == 0 then -1
    else if list[0] == id then 0
    else
      var j := IndexOf(list[1..], id);
      if j == -1 then -1 else j + 1
  }

  /** `bookmarks.splice(i, 1)`. */
  function RemoveAt(list: seq<string>, i: nat): (r: seq<string>)
    requires i < |list|
    ensures |r| == |list| - 1
    ensures forall k :: 0 <= k < i ==> r[k] == list[k]
    ensures forall k :: i <= k < |r| ==> r[k] == list[k + 1]
  {
    list[..i] + list[i + 1..]
  }

  /** The list after a toggle: the first occurrence removed when present,
      the id appended when absent. Membership of `id` flips unless the list
      already held it more than once. */
  function Toggle(list: seq<string>, id: string): (r: seq<string>)
    ensures id !in list ==> r == list + [id]
    ensures id in list ==> |r| == |list| - 1 && Count(r, id) == Count(list, id) - 1
    ensures Count(list, id) <= 1 ==> (id in r <==> id !in list)
  {
    var i := IndexOf(list, id);
    if i != -1 then
      RemoveAtCount(list, i);
      CountPositive(list, id);
      CountPositive(RemoveAt(list, i), id);
      RemoveAt(list, i)
    else list + [id]
  }

  /** The copy a toggle removes is the FIRST one: for the first position `i`
      holding `id`, the toggled list is the list with position `i` cut out,
      whatever copies follow. */
  lemma ToggleRemovesFirst(list: seq<string>, id: string, i: nat)
    requires i < |list| && list[i] == id && id !in list[..i]
    ensures Toggle(list, id) == list[..i] + list[i + 1..]
  {
    IndexOfFirst(list, id, i);
  }

  /** `indexOf` finds the first occurrence: a position holding `id` with no
      `id` before it is where the search stops. */
  lemma {:induction false} IndexOfFirst(list: seq<string>, id: string, i: nat)
    requires i < |list| && list[i] == id && id !in list[..i]
    ensures IndexOf(list, id) == i
  {
    if i != 0 {
      assert list[0] == list[..i][0];
      assert list[1..][..i - 1] == list[..i][1..];
      IndexOfFirst(list[1..], id, i - 1);
    }
  }

  /** `splice(i, 1)` at an occurrence of `id` removes exactly one copy of it. */
  lemma {:induction false} RemoveAtCount(list: seq<string>, i: nat)
    requires i < |list|
    ensures Count(RemoveAt(list, i), list[i]) == Count(list, list[i]) - 1
  {
    var id := list[i];
    var front, back := list[..i], list[i + 1..];
    assert list == front + ([id] + back);
    CountSplit(front, [id] + back, id);
    CountSplit([id], back, id);
    assert Count([id], id) == 1 by {
      assert [id][1..] == [];
    }
    CountSplit(front, back, id);
  }

  /** How many times `id` occurs. */
  function Count(list: seq<string>, id: string): nat {
    if |list| == 0 then 0
    else (if list[0] == id then 1 else 0) + Count(list[1..], id)
  }

  /** No id occurs twice. */
  predicate NoDuplicates(list: seq<string>) {
    forall i, j :: 0 <= i < j < |list| ==> list[i] != list[j]
  }

  /** The list with every occurrence of `id` dropped: what a toggle of `id`
      must leave alone. */
  function Without(list: seq<string>, id: string): seq<string> {
    if |list| == 0 then []
    else (if list[0] == id then [] else [list[0]]) + Without(list[1..], id)
  }

  lemma {:induction false} CountSplit(a: seq<string>, b: seq<string>, id: string)
    ensures Count(a + b, id) == Count(a, id) + Count(b, id)
  {
    if |a| == 0 {
      assert a + b == b;
    } else {
      assert (a + b)[1..] == a[1..] + b;
      CountSplit(a[1..], b, id);
    }
  }

  lemma {:induction false} CountAbsent(a: seq<string>, id: string)
    ensures id !in a <==> Count(a, id) == 0
  {
    if |a| != 0 {
      CountAbsent(a[1..], id);
      assert a == [a[0]] + a[1..];
    }
  }

  lemma CountPositive(a: seq<string>, id: string)
    ensures id in a <==> Count(a, id) > 0
  {
  }

  lemma {:induction false} WithoutSplit(a: seq<string>, b: seq<string>, id: string)
    ensures Without(a + b, id) == Without(a, id) + Without(b, id)
  {
    if |a| == 0 {
      assert a + b == b;
    } else {
      assert (a + b)[1..] == a[1..] + b;
      WithoutSplit(a[1..], b, id);
    }
  }

  lemma {:induction false} WithoutMembers(a: seq<string>, id: string, other: string)
    requires other != id
    ensures other in Without(a, id) <==> other in a
  {
    if |a| != 0 {
      WithoutMembers(a[1..], id, other);
      assert a == [a[0]] + a[1..];
    }
  }

  /** A toggle of `id` keeps every other id, in the same relative order:
      dropping `id` from the list before and after gives the same list. */
  lemma ToggleKeepsOthers(list: seq<string>, id: string)
    ensures Without(Toggle(list, id), id) == Without(list, id)
    ensures forall other :: other != id ==> (other in Toggle(list, id) <==> other in list)
  {
    var r := Toggle(list, id);
    var i := IndexOf(list, id);
    if i == -1 {
      WithoutSplit(list, [id], id);
      assert Without([id], id) == [] by {
        assert [id][1..] == [];
      }
    } else {
      assert list == list[..i] + ([id] + list[i + 1..]);
      WithoutSplit(list[..i], [id] + list[i + 1..], id);
      WithoutSplit([id], list[i + 1..], id);
      assert Without([id], id) == [] by {
        assert [id][1..] == [];
      }
      WithoutSplit(list[..i], list[i + 1..], id);
    }
    forall other | other != id
      ensures other in r <==> other in list
    {
      WithoutMembers(r, id, other);
      WithoutMembers(list, id, other);
    }
  }

  /** As a bag, a toggle adds or removes exactly one copy of `id`. */
  lemma ToggleMultiset(list: seq<string>, id: string)
    ensures multiset(Toggle(list, id)) ==
      if id in list then multiset(list) - multiset{id} else multiset(list) + multiset{id}
  {
    var i := IndexOf(list, id);
    if i != -1 {
      assert list == list[..i] + [id] + list[i + 1..];
      assert multiset(list) == multiset(list[..i]) + multiset{id} + multiset(list[i + 1..]);
      assert multiset(Toggle(list, id)) == multiset(list[..i]) + multiset(list[i + 1..]);
    }
  }

  /** A toggle keeps a duplicate-free list duplicate-free. */
  lemma ToggleNoDuplicates(list: seq<string>, id: string)
    requires NoDuplicates(list)
    ensures NoDuplicates(Toggle(list, id))
  {
    var i := IndexOf(list, id);
    if i != -1 {
      var r := RemoveAt(list, i);
      assert forall k :: 0 <= k < |r| ==> r[k] == list[if k < i then k else k + 1];
    }
  }

  /** Toggling an absent id twice restores the list exactly. */
  lemma ToggleTwiceAbsent(list: seq<string>, id: string)
    requires id !in list
    ensures Toggle(Toggle(list, id), id) == list
  {
  }

  /** Toggling a bookmarked id twice restores membership but moves the id
      to the end: the result is the other ids, in order, followed by `id`.
      (With a second copy already stored, the second toggle would remove
      that copy instead.) */
  lemma ToggleTwicePresent(list: seq<string>, id: string)
    requires id in list && Count(list, id) == 1
    ensures Toggle(Toggle(list, id), id) == RemoveAt(list, IndexOf(list, id)) + [id]
    ensures Toggle(Toggle(list, id), id) == Without(list, id) + [id]
  {
    CountPositive(list, id);
    var once := Toggle(list, id);
    CountAbsent(once, id);
    ToggleKeepsOthers(list, id);
    AbsentWithout(once, id);
  }

  lemma {:induction false} AbsentWithout(list: seq<string>, id: string)
    requires id !in list
    ensures Without(list, id) == list
  {
    if |list| != 0 {
      assert list[0] != id;
      AbsentWithout(list[1..], id);
      assert list == [list[0]] + list[1..];
    }
  }

  /** Wraps each id as a JSON string, as `JSON.stringify` writes the array. */
  function Encode(list: seq<string>): seq<Value> {
    seq(|list|, i requires 0 <= i < |list| => Str(list[i]))
  }

  predicate AllStrings(xs: seq<Value>) {
    forall i :: 0 <= i < |xs| ==> xs[i].Str?
  }

  function Decode(xs: seq<Value>): seq<string>
    requires AllStrings(xs)
  {
    seq(|xs|, i requires 0 <= i < |xs| && AllStrings(xs) => xs[i].s)
  }

  /** `JSON.parse(localStorage.getItem('bookmarks')) || []`: an absent key
      (parsed as null) or any falsy value reads as the empty list. */
  function Read(store: Store): (r: Result<seq<string>>)
    ensures Key !in store ==> r == Ok([])
    ensures Key in store && store[Key].Arr? && AllStrings(store[Key].items) ==> r == Ok(Decode(store[Key].items))
    ensures Key in store && !Truthy(store[Key]) && !store[Key].Undefined? ==> r == Ok([])
    ensures Key in store && store[Key].Undefined? ==> r == Err(SyntaxError)
    ensures r.Err? <==> (Key in store &&
      (store[Key].Undefined? || (Truthy(store[Key]) && !(store[Key].Arr? && AllStrings(store[Key].items)))))
  {
    if Key !in store then Ok([])
    else
      match store[Key]
      case Undefined => Err(SyntaxError)
      case Arr(xs) => if AllStrings(xs) then Ok(Decode(xs)) else Err(Unsupported)
      case v => if Truthy(v) then Err(Unsupported) else Ok([])
  }

  /** `localStorage.setItem('bookmarks', JSON.stringify(list))`. */
  function Write(store: Store, list: seq<string>): (r: Store)
    ensures r.Keys == store.Keys + {Key}
    ensures forall k :: k in store && k != Key ==> r[k] == store[k]
  {
    store[Key := Arr(Encode(list))]
  }

  /** What is written is what is read back. */
  lemma ReadWrite(store: Store, list: seq<string>)
    ensures Read(Write(store, list)) == Ok(list)
  {
    var xs := Encode(list);
    assert AllStrings(xs);
    assert Decode(xs) == list;
  }

  /** The effect of either script's toggle on the store: read the list,
      toggle `id`, write the list back; `added` tells whether `id` is now
      bookmarked. A stored value that cannot be read stops before the write. */
  datatype Toggled = Toggled(store: Store, added: bool)

  function ToggleStored(store: Store, id: string): (r: Result<Toggled>)
    ensures r.Err? <==> Read(store).Err?
    ensures r.Ok? ==> Read(r.value.store) == Ok(Toggle(Read(store).value, id))
    ensures r.Ok? ==> (r.value.added <==> id !in Read(store).value)
    ensures r.Ok? && r.value.added ==> id in Read(r.value.store).value
    ensures r.Ok? && NoDuplicates(Read(store).value) ==> (r.value.added <==> id in Read(r.value.store).value)
    ensures r.Ok? ==> forall k :: k != Key ==> (k in r.value.store <==> k in store)
    ensures r.Ok? ==> forall k :: k in store && k != Key ==> r.value.store[k] == store[k]
  {
    match Read(store)
    case Err(e) => Err(e)
    case Ok(list) =>
      var updated := Toggle(list, id);
      ReadWrite(store, updated);
      Ok(Toggled(Write(store, updated), id !in list))
  }
}
