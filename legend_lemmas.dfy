/**
 * Properties that relate the legend panel's operations to one another:
 * a refresh keeps the user's choices, the show/hide-all buttons decide the
 * filter, and every row the zoom button picks out for a shown category is
 * one the filter shows.
 */
module LegendLemmas {
  import opened Wrappers
  import opened LegendSpec

  /** A refresh lists exactly the legend keys, in their order: no old item survives unless a key re-creates it. */
  lemma TextsOfRefresh(oldItems: seq<CheckBoxItem>, keys: seq<string>, equalsStd: (string, string) -> bool)
    ensures Texts(Refreshed(oldItems, keys, equalsStd)) == keys
  {
  }

  /** A refresh with the keys the list already shows reproduces the list, selections included. */
  lemma RefreshWithSameKeysKeepsItems(items: seq<CheckBoxItem>, equalsStd: (string, string) -> bool)
    requires Reflexive(equalsStd)
    requires StdDistinct(items, equalsStd)
    ensures Refreshed(items, Texts(items), equalsStd) == items
  {
    var r := Refreshed(items, Texts(items), equalsStd);
    forall i | 0 <= i < |items|
      ensures r[i] == items[i]
    {
      var m := FirstMatch(items, items[i].text, equalsStd);
      assert equalsStd(items[i].text, items[i].text);
      assert m != None;
      assert m.value == i;
    }
  }

  /** A shown fresh item makes every key that matches it visible. */
  lemma ShownItemAccepts(items: seq<CheckBoxItem>, i: nat, key: Option<string>, equalStandardised: (Option<string>, string) -> bool)
    requires i < |items| && items[i].selected && equalStandardised(key, items[i].text)
    ensures Accepted(items, key, equalStandardised)
  {
  }

  /** After a refresh, a key with a fresh entry whose matching old items were all shown is visible. */
  lemma RefreshShowsKeptOrNewKeys<V>(oldItems: seq<CheckBoxItem>, keys: seq<string>, s: string, c: Collaborators<V>)
    requires Equivalence(c.equalsStd) && Coincide(c)
    requires exists i :: 0 <= i < |keys| && c.equalStandardised(Some(s), keys[i])
    requires forall j :: 0 <= j < |oldItems| && c.equalStandardised(Some(s), oldItems[j].text) ==> oldItems[j].selected
    ensures Accepted(Refreshed(oldItems, keys, c.equalsStd), Some(s), c.equalStandardised)
  {
    var eq := c.equalsStd;
    var r := Refreshed(oldItems, keys, eq);
    var i :| 0 <= i < |keys| && c.equalStandardised(Some(s), keys[i]);
    assert eq(s, keys[i]);
    match FirstMatch(oldItems, keys[i], eq)
    case None =>
      assert r[i].selected;
    case Some(k) =>
      assert eq(oldItems[k].text, keys[i]);
      assert eq(keys[i], oldItems[k].text);
      assert eq(s, oldItems[k].text);
      assert c.equalStandardised(Some(s), oldItems[k].text);
      assert r[i].selected;
    ShownItemAccepts(r, i, Some(s), c.equalStandardised);
  }

  /** After any refresh, a key that no fresh legend entry matches is hidden. */
  lemma RefreshHidesLeftKeys<V>(oldItems: seq<CheckBoxItem>, keys: seq<string>, s: string, c: Collaborators<V>)
    requires Accepted(Refreshed(oldItems, keys, c.equalsStd), Some(s), c.equalStandardised)
    ensures exists i :: 0 <= i < |keys| && c.equalStandardised(Some(s), keys[i])
  {
    var r := Refreshed(oldItems, keys, c.equalsStd);
    var i :| 0 <= i < |r| && r[i].selected && c.equalStandardised(Some(s), r[i].text);
    assert r[i].text == keys[i];
  }

  /** After a refresh over distinct old items, every old item that a visible key matches was shown. */
  lemma RefreshHidesNothingNew<V>(oldItems: seq<CheckBoxItem>, keys: seq<string>, s: string, c: Collaborators<V>)
    requires Equivalence(c.equalsStd) && Coincide(c)
    requires StdDistinct(oldItems, c.equalsStd)
    requires Accepted(Refreshed(oldItems, keys, c.equalsStd), Some(s), c.equalStandardised)
    ensures forall j :: 0 <= j < |oldItems| && c.equalStandardised(Some(s), oldItems[j].text) ==> oldItems[j].selected
  {
    var eq := c.equalsStd;
    var r := Refreshed(oldItems, keys, eq);
    var i :| 0 <= i < |r| && r[i].selected && c.equalStandardised(Some(s), r[i].text);
    assert r[i].text == keys[i];
    forall j | 0 <= j < |oldItems| && c.equalStandardised(Some(s), oldItems[j].text)
      ensures oldItems[j].selected
    {
      assert eq(s, oldItems[j].text);
      assert eq(s, keys[i]);
      assert eq(oldItems[j].text, s);
      assert eq(oldItems[j].text, keys[i]);
      var m := FirstMatch(oldItems, keys[i], eq);
      assert m != None && m.value <= j;
      assert eq(keys[i], oldItems[j].text);
      assert eq(oldItems[m.value].text, oldItems[j].text);
      assert m.value == j;
      assert r[i].selected == oldItems[j].selected;
    }
  }

  /**
   * Visibility after a refresh, when the old list has no two standardised-equal
   * texts: a key is shown exactly when some fresh legend entry matches it and
   * the user had not hidden it. New categories start shown, categories that left
   * the legend are hidden, and the others keep their choice.
   */
  lemma RefreshVisibility<V>(oldItems: seq<CheckBoxItem>, keys: seq<string>, s: string, c: Collaborators<V>)
    requires Equivalence(c.equalsStd) && Coincide(c)
    requires StdDistinct(oldItems, c.equalsStd)
    ensures Accepted(Refreshed(oldItems, keys, c.equalsStd), Some(s), c.equalStandardised)
        <==> ((exists i :: 0 <= i < |keys| && c.equalStandardised(Some(s), keys[i]))
          && (forall j :: 0 <= j < |oldItems| && c.equalStandardised(Some(s), oldItems[j].text) ==> oldItems[j].selected))
  {
    if Accepted(Refreshed(oldItems, keys, c.equalsStd), Some(s), c.equalStandardised) {
      RefreshHidesLeftKeys(oldItems, keys, s, c);
      RefreshHidesNothingNew(oldItems, keys, s, c);
    }
    if && (exists i :: 0 <= i < |keys| && c.equalStandardised(Some(s), keys[i]))
       && (forall j :: 0 <= j < |oldItems| && c.equalStandardised(Some(s), oldItems[j].text) ==> oldItems[j].selected)
    {
      RefreshShowsKeptOrNewKeys(oldItems, keys, s, c);
    }
  }

  /**
   * Without distinct old texts a refresh can show a key that an old item hid:
   * when every text compares equal, the old list [a shown, b hidden] refreshed
   * with the key "a" keeps "a" shown (its first match was shown) although the
   * hidden "b" matches it too.
   */
  lemma RefreshCanShowKeyWithHiddenDuplicate()
    ensures var c := Collaborators((a: string, b: string) => true, (k: Option<string>, b: string) => true,
                                   (v: string) => Some(v), (t: Table<string>) => ["a"]);
      var oldItems := [CheckBoxItem("a", true), CheckBoxItem("b", false)];
      && Equivalence(c.equalsStd) && Coincide(c)
      && !StdDistinct(oldItems, c.equalsStd)
      && c.equalStandardised(Some("a"), oldItems[1].text) && !oldItems[1].selected
      && Accepted(Refreshed(oldItems, ["a"], c.equalsStd), Some("a"), c.equalStandardised)
  {
    var c := Collaborators((a: string, b: string) => true, (k: Option<string>, b: string) => true,
                           (v: string) => Some(v), (t: Table<string>) => ["a"]);
    var oldItems := [CheckBoxItem("a", true), CheckBoxItem("b", false)];
    assert c.equalsStd(oldItems[0].text, oldItems[1].text);
    assert FirstMatch(oldItems, "a", c.equalsStd) == Some(0);
    var r := Refreshed(oldItems, ["a"], c.equalsStd);
    assert r[0].selected && c.equalStandardised(Some("a"), r[0].text);
  }

  /** After "Hide all", every row with a key is filtered out. */
  lemma HideAllHidesEveryKey(items: seq<CheckBoxItem>, s: string, equalStandardised: (Option<string>, string) -> bool)
    ensures !Accepted(WithAllSelected(items, false), Some(s), equalStandardised)
  {
  }

  /** After "Show all", a row with a key is shown exactly when some item's text matches the key. */
  lemma ShowAllShowsListedKeys(items: seq<CheckBoxItem>, s: string, equalStandardised: (Option<string>, string) -> bool)
    ensures Accepted(WithAllSelected(items, true), Some(s), equalStandardised)
        <==> exists i :: 0 <= i < |items| && equalStandardised(Some(s), items[i].text)
  {
  }

  /** Zooming to a shown item of the list frames only rows the filter shows. */
  lemma ZoomedRowsAreShown<V>(items: seq<CheckBoxItem>, n: nat, all: Table<V>, column: nat, c: Collaborators<V>)
    requires n < |items| && items[n].selected
    requires HasColumn(all, column)
    ensures var rows := MatchingRows(all, column, items[n].text, c, |all|);
      forall k :: 0 <= k < |rows| ==> Accepted(items, LegendKey(all, rows[k], column, c.convertToString), c.equalStandardised)
  {
    var rows := MatchingRows(all, column, items[n].text, c, |all|);
    forall k | 0 <= k < |rows|
      ensures Accepted(items, LegendKey(all, rows[k], column, c.convertToString), c.equalStandardised)
    {
      assert rows[k] in rows;
      assert RowMatches(all, rows[k], column, items[n].text, c);
      ShownItemAccepts(items, n, LegendKey(all, rows[k], column, c.convertToString), c.equalStandardised);
    }
  }
}
