/**
 * The list state of src/sidepanel.js: the closure variables `linkListArray`
 * and `maxTasks`, and what the add, delete, toggle, max-settings and capture
 * handlers do to them. The DOM work of each handler is left out; what the
 * handler reads from the page arrives as a parameter.
 */
module LinkList {
  import opened Wrappers
  import opened JsStrings
  import opened HtmlEscape
  import opened UrlValidator

  /** One entry of `linkListArray`: `{task, link, isChecked}`. */
  datatype Item = Item(task: string, link: string, isChecked: bool)

  /** The item the manual add handler pushes for the trimmed input `text`. The
      link is always empty, even when the text is a URL. */
  function ManualItem(text: string): Item {
    Item(EscapeHtml(text), "", false)
  }

  // ---------------------------------------------------------------------------
  // filter and find
  // ---------------------------------------------------------------------------

  /** `items.filter(item => item.task !== key)`. */
  function RemoveTask(items: seq<Item>, key: string): (r: seq<Item>)
    ensures |r| <= |items|
    ensures forall i :: 0 <= i < |r| ==> r[i].task != key
    ensures forall x: Item :: x.task != key ==> multiset(r)[x] == multiset(items)[x]
    ensures (forall i :: 0 <= i < |items| ==> items[i].task != key) ==> r == items
  {
    if items == [] then []
    else
      assert items == [items[0]] + items[1..];
      assert multiset(items) == multiset{items[0]} + multiset(items[1..]);
      var rest := RemoveTask(items[1..], key);
      if items[0].task != key then
        assert multiset([items[0]] + rest) == multiset{items[0]} + multiset(rest);
        [items[0]] + rest
      else rest
  }

  /** `a` is `b` with some elements left out, the rest in their order. */
  predicate IsSubsequence(a: seq<Item>, b: seq<Item>)
    decreases |b|
  {
    if b == [] then a == []
    else (a != [] && a[0] == b[0] && IsSubsequence(a[1..], b[1..])) || IsSubsequence(a, b[1..])
  }

  /** Deleting keeps the surviving items in their order. */
  lemma {:induction false} RemoveTaskIsSubsequence(items: seq<Item>, key: string)
    ensures IsSubsequence(RemoveTask(items, key), items)
    decreases |items|
  {
    if items != [] {
      RemoveTaskIsSubsequence(items[1..], key);
      if items[0].task != key {
        assert ([items[0]] + RemoveTask(items[1..], key))[1..] == RemoveTask(items[1..], key);
      }
    }
  }

  lemma {:induction false} RemoveTaskAppend(a: seq<Item>, b: seq<Item>, key: string)
    ensures RemoveTask(a + b, key) == RemoveTask(a, key) + RemoveTask(b, key)
    decreases |a|
  {
    if a == [] {
      assert a + b == b;
    } else {
      assert (a + b)[0] == a[0] && (a + b)[1..] == a[1..] + b;
      RemoveTaskAppend(a[1..], b, key);
      if a[0].task != key {
        var ra, rb := RemoveTask(a[1..], key), RemoveTask(b, key);
        assert [a[0]] + ra + rb == [a[0]] + (ra + rb);
      }
    }
  }

  /** Adding a text manually and then deleting by the stored task text gives the
      list back, when no earlier item had that task text. */
  lemma RemoveManuallyAdded(items: seq<Item>, text: string)
    requires forall i :: 0 <= i < |items| ==> items[i].task != EscapeHtml(text)
    ensures RemoveTask(items + [ManualItem(text)], EscapeHtml(text)) == items
  {
    RemoveTaskAppend(items, [ManualItem(text)], EscapeHtml(text));
    assert [ManualItem(text)][1..] == [];
  }

  /** Deleting by the unescaped text, when the text holds one of `& < > " '`,
      does not remove the item that text was stored as. */
  lemma RemoveByUnescapedText(items: seq<Item>, text: string)
    requires exists i :: 0 <= i < |text| && IsMarkupChar(text[i])
    ensures RemoveTask(items + [ManualItem(text)], text) == RemoveTask(items, text) + [ManualItem(text)]
  {
    EscapeHtmlIdentity(text);
    var it := ManualItem(text);
    assert it.task != text;
    assert RemoveTask([it], text) == [it];
    RemoveTaskAppend(items, [it], text);
  }

  /** `items.find(element => element.task === key)`, as an index. */
  function FindTask(items: seq<Item>, key: string): (r: Option<nat>)
    ensures r.Some? ==> r.value < |items| && items[r.value].task == key
    ensures r.Some? ==> forall j :: 0 <= j < r.value ==> items[j].task != key
    ensures r.None? <==> forall j :: 0 <= j < |items| ==> items[j].task != key
  {
    if items == [] then None
    else if items[0].task == key then Some(0)
    else match FindTask(items[1..], key)
      case None => None
      case Some(i) => Some(i + 1)
  }

  /** An item whose task no earlier item has is found at its own index. */
  lemma {:induction false} FindTaskOfAppended(items: seq<Item>, it: Item)
    requires forall i :: 0 <= i < |items| ==> items[i].task != it.task
    ensures FindTask(items + [it], it.task) == Some(|items|)
    decreases |items|
  {
    var l := items + [it];
    if items == [] {
      assert l == [it];
    } else {
      assert l[0] == items[0] && l[1..] == items[1..] + [it];
      FindTaskOfAppended(items[1..], it);
    }
  }

  /** The delete and toggle handlers read their key from the rendered entry.
      An entry added since the panel loaded renders the escaped task as HTML,
      so its text is the original input. For a text holding one of
      `& < > " '` that key matches no stored task: delete leaves the item in
      place and toggle finds nothing, so its assignment throws. */
  lemma ShownTextMissesMarkedUpItem(text: string)
    requires exists i :: 0 <= i < |text| && IsMarkupChar(text[i])
    ensures RemoveTask([ManualItem(text)], Unescape(ManualItem(text).task)) == [ManualItem(text)]
    ensures FindTask([ManualItem(text)], Unescape(ManualItem(text).task)).None?
  {
    UnescapeEscapeHtml(text);
    EscapeHtmlIdentity(text);
  }

  /** An entry rendered at load escapes its stored task once more, so its text
      is the stored task itself and `find` locates the item. */
  lemma ReloadedEntryFindsItem(items: seq<Item>, i: nat)
    requires i < |items| && forall j :: 0 <= j < i ==> items[j].task != items[i].task
    ensures Unescape(EscapeHtml(items[i].task)) == items[i].task
    ensures FindTask(items, Unescape(EscapeHtml(items[i].task))) == Some(i)
  {
    UnescapeEscapeHtml(items[i].task);
  }

  /** Keyed by the stored task rather than by the rendered text, delete
      removes exactly the fresh item and toggle finds it, whatever the text. */
  lemma StoredTaskKeyFindsItem(items: seq<Item>, text: string)
    requires forall i :: 0 <= i < |items| ==> items[i].task != EscapeHtml(text)
    ensures RemoveTask(items + [ManualItem(text)], ManualItem(text).task) == items
    ensures FindTask(items + [ManualItem(text)], ManualItem(text).task) == Some(|items|)
  {
    RemoveManuallyAdded(items, text);
    FindTaskOfAppended(items, ManualItem(text));
  }

  // ---------------------------------------------------------------------------
  // max settings and capture
  // ---------------------------------------------------------------------------

  /** The `switch` on `data-max`: "3", "5" and "7" select that maximum, any other
      value keeps the current one. */
  function NextMax(dataMax: string, current: int): (m: int)
    ensures m == current || m == 3 || m == 5 || m == 7
    ensures dataMax == "3" ==> m == 3
    ensures dataMax == "5" ==> m == 5
    ensures dataMax == "7" ==> m == 7
    ensures dataMax != "3" && dataMax != "5" && dataMax != "7" ==> m == current
  {
    if dataMax == "3" then 3
    else if dataMax == "5" then 5
    else if dataMax == "7" then 7
    else current
  }

  /** The item the `onMessage` handler pushes for a context-menu click. An
      empty `selectionText` or `linkUrl` stands for a missing one: both are
      falsy in the handler's tests. */
  function CaptureItem(parse: UrlParser, pageUrl: string, selectionText: string, linkUrl: string): (it: Item)
    ensures !it.isChecked
    ensures selectionText != "" ==>
              && it.task == EscapeHtml(Trim(selectionText))
              && it.link == (if IsValidURL(parse, selectionText) then selectionText else pageUrl)
    ensures selectionText == "" && linkUrl != "" ==> it == Item(EscapeHtml(linkUrl), linkUrl, false)
    ensures selectionText == "" && linkUrl == "" ==> it == Item(EscapeHtml(pageUrl), pageUrl, false)
  {
    if selectionText != "" then
      Item(EscapeHtml(Trim(selectionText)),
           if IsValidURL(parse, selectionText) then selectionText else pageUrl, false)
    else if linkUrl != "" then Item(EscapeHtml(linkUrl), linkUrl, false)
    else Item(EscapeHtml(pageUrl), pageUrl, false)
  }

  /** A captured item is safe markup, and its link is the selection only when
      the selection parses as a URL; otherwise it is the link or the page. */
  lemma CaptureItemFacts(parse: UrlParser, pageUrl: string, selectionText: string, linkUrl: string)
    ensures var it := CaptureItem(parse, pageUrl, selectionText, linkUrl);
            && '<' !in it.task && '>' !in it.task && '"' !in it.task && '\'' !in it.task
            && (it.link == pageUrl || it.link == linkUrl || IsValidURL(parse, it.link))
  {
    var it := CaptureItem(parse, pageUrl, selectionText, linkUrl);
    if selectionText != "" {
      EscapeHtmlHasNoMarkup(Trim(selectionText));
    } else if linkUrl != "" {
      EscapeHtmlHasNoMarkup(linkUrl);
    } else {
      EscapeHtmlHasNoMarkup(pageUrl);
    }
  }

  // ---------------------------------------------------------------------------
  // The store
  // ---------------------------------------------------------------------------

  datatype AddOutcome =
    | Added
    | ListFull    // the "You can only add up to N tasks." alert
    | EmptyInput  // the "Please enter a task." alert

  /** `linkListArray` and `maxTasks`, with what the handlers last wrote to
      `chrome.storage.sync`. */
  class LinkListStore {
    var items: seq<Item>
    var maxTasks: int
    /** The list under `linkList_123` in storage, as the next load would read it. */
    ghost var stored: seq<Item>
    /** The value under `maxTasks` in storage, as the next load would read it. */
    ghost var storedMaxTasks: int

    ghost predicate Valid()
      reads this
    {
      maxTasks == 3 || maxTasks == 5 || maxTasks == 7
    }

    /** The state after loading from empty storage: no items, a maximum of 3. */
    constructor ()
      ensures Valid()
      ensures items == [] && maxTasks == 3
      ensures stored == [] && storedMaxTasks == 3
    {
      items := [];
      maxTasks := 3;
      stored := [];
      storedMaxTasks := 3;
    }

    /** The add button: refuse a full list first, then blank input, else push
        the escaped trimmed text with an empty link and store the list. */
    method AddManual(input: string) returns (outcome: AddOutcome)
      requires Valid()
      modifies this
      ensures Valid() && maxTasks == old(maxTasks) && storedMaxTasks == old(storedMaxTasks)
      ensures outcome == (if |old(items)| == old(maxTasks) then ListFull
                          else if Trim(input) == "" then EmptyInput
                          else Added)
      ensures outcome == Added ==> items == old(items) + [ManualItem(Trim(input))] && stored == items
      ensures outcome != Added ==> items == old(items) && stored == old(stored)
      ensures old(|items|) <= old(maxTasks) ==> |items| <= maxTasks
    {
      var todoText := Trim(input);
      if |items| == maxTasks {
        outcome := ListFull;
      } else if todoText == "" {
        outcome := EmptyInput;
      } else {
        items := items + [ManualItem(todoText)];
        stored := items;
        outcome := Added;
      }
    }

    /** The delete button: drop every item whose task is `key`, and store the
        list whether or not anything was dropped. */
    method Delete(key: string)
      requires Valid()
      modifies this
      ensures Valid() && maxTasks == old(maxTasks) && storedMaxTasks == old(storedMaxTasks)
      ensures items == RemoveTask(old(items), key) && stored == items
      ensures old(|items|) <= old(maxTasks) ==> |items| <= maxTasks
    {
      items := RemoveTask(items, key);
      stored := items;
    }

    /** The checkbox: set `isChecked` of the first item whose task is `key` to
        the box's new state and store the list. With no such item `find`
        yields `undefined`, the assignment throws, and nothing changes. */
    method Toggle(key: string, checked: bool) returns (thrown: bool)
      requires Valid()
      modifies this
      ensures Valid() && maxTasks == old(maxTasks) && storedMaxTasks == old(storedMaxTasks)
      ensures thrown <==> forall j :: 0 <= j < |old(items)| ==> old(items)[j].task != key
      ensures thrown ==> items == old(items) && stored == old(stored)
      ensures !thrown ==>
                var i := FindTask(old(items), key).value;
                && items == old(items)[i := old(items)[i].(isChecked := checked)]
                && stored == items
      ensures |items| == |old(items)|
    {
      match FindTask(items, key)
      case None =>
        thrown := true;
      case Some(i) =>
        items := items[i := items[i].(isChecked := checked)];
        stored := items;
        thrown := false;
    }

    /** A click in the max settings: nothing when `parseInt(data-max)` is the
        current maximum; otherwise set the maximum by the `switch`, store it,
        and cut the list to its first `maxTasks` items without storing the
        shortened list. */
    method SelectMax(dataMax: string)
      requires Valid()
      modifies this
      ensures Valid()
      ensures ParseInt(dataMax) == Some(old(maxTasks)) ==>
                && items == old(items) && maxTasks == old(maxTasks)
                && stored == old(stored) && storedMaxTasks == old(storedMaxTasks)
      ensures ParseInt(dataMax) != Some(old(maxTasks)) ==>
                && maxTasks == NextMax(dataMax, old(maxTasks))
                && storedMaxTasks == maxTasks
                && items == (if |old(items)| > maxTasks then old(items)[..maxTasks] else old(items))
                && stored == old(stored)
                && |items| <= maxTasks
      ensures old(|items|) <= old(maxTasks) ==> |items| <= maxTasks
    {
      if ParseInt(dataMax) != Some(maxTasks) {
        ApplyMax(NextMax(dataMax, maxTasks));
      }
    }

    /** The body of that click once the maximum changes: set it to `m`, store
        it, and cut the shown list to its first `m` items. */
    method ApplyMax(m: int)
      requires m == 3 || m == 5 || m == 7
      modifies this
      ensures Valid() && maxTasks == m && storedMaxTasks == m
      ensures items == (if |old(items)| > m then old(items)[..m] else old(items))
      ensures stored == old(stored) && |items| <= m
    {
      maxTasks := m;
      storedMaxTasks := m;
      if |items| > m {
        items := items[..m];
      }
    }

    /** The `onMessage` handler: push the captured item, whatever the length of
        the list, and store the list. */
    method Capture(parse: UrlParser, pageUrl: string, selectionText: string, linkUrl: string)
      requires Valid()
      modifies this
      ensures Valid() && maxTasks == old(maxTasks) && storedMaxTasks == old(storedMaxTasks)
      ensures items == old(items) + [CaptureItem(parse, pageUrl, selectionText, linkUrl)]
      ensures stored == items
    {
      var link := pageUrl;
      var textAdded := "";
      if selectionText != "" {
        if IsValidURL(parse, selectionText) {
          link := selectionText;
        }
        textAdded := EscapeHtml(Trim(selectionText));
      } else if linkUrl != "" {
        textAdded := EscapeHtml(linkUrl);
        link := linkUrl;
      } else {
        textAdded := EscapeHtml(pageUrl);
      }
      items := items + [Item(textAdded, link, false)];
      stored := items;
    }
  }

  // ---------------------------------------------------------------------------
  // Runs of the handlers
  // ---------------------------------------------------------------------------

  /** From empty storage, three manual adds of non-blank text fill the list
      and a fourth is refused with the list left at three items. */
  method ManualAddsStopAtMax(t1: string, t2: string, t3: string, t4: string)
    returns (outcomes: seq<AddOutcome>, length: nat)
    requires Trim(t1) != "" && Trim(t2) != "" && Trim(t3) != ""
    ensures outcomes == [Added, Added, Added, ListFull] && length == 3
  {
    var store := new LinkListStore();
    var o1 := store.AddManual(t1);
    var o2 := store.AddManual(t2);
    var o3 := store.AddManual(t3);
    var o4 := store.AddManual(t4);
    outcomes, length := [o1, o2, o3, o4], |store.items|;
  }

  /** Captures ignore the maximum, and the guard of the add button is `==`:
      once captures push the list past the maximum, a manual add is accepted
      again. */
  method CaptureReopensManualAdd(parse: UrlParser, pageUrl: string, text: string)
    returns (outcome: AddOutcome, length: nat)
    requires Trim(text) != ""
    ensures outcome == Added && length == 5
  {
    var store := new LinkListStore();
    store.Capture(parse, pageUrl, "", "");
    store.Capture(parse, pageUrl, "", "");
    store.Capture(parse, pageUrl, "", "");
    store.Capture(parse, pageUrl, "", "");
    outcome := store.AddManual(text);
    length := |store.items|;
  }

  /** Cutting the list down stores only the new maximum: the stored list still
      holds the items that were cut, and the next load brings them back. */
  method TruncationIsNotStored(text: string) returns (shown: nat, ghost persisted: nat)
    requires Trim(text) != ""
    ensures shown == 3 && persisted == 5
  {
    var store := FiveUnderMaxFive(text);
    ParseIntOfNumeral("3");
    store.SelectMax("3");
    shown, persisted := |store.items|, |store.stored|;
  }

  /** From empty storage: choose a maximum of 5, then add five items by hand. */
  method FiveUnderMaxFive(text: string) returns (store: LinkListStore)
    requires Trim(text) != ""
    ensures fresh(store) && store.Valid() && store.maxTasks == 5
    ensures |store.items| == 5 && store.stored == store.items
  {
    store := new LinkListStore();
    ParseIntOfNumeral("5");
    store.SelectMax("5");
    var i := 0;
    while i < 5
      invariant 0 <= i <= 5
      invariant store.Valid() && store.maxTasks == 5
      invariant |store.items| == i && store.stored == store.items
    {
      var o := store.AddManual(text);
      i := i + 1;
    }
  }
}
