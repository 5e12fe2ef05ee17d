/**
 * The legend side panel of the map and the action that opens and closes it.
 * The host map is reduced to what the panel reads and changes: the
 * unfiltered table of all layers, the legend-key column, the collaborating
 * string and legend utilities, and the two listener registries.
 */
module LegendPlugin {
  import opened Wrappers
  import opened LegendSpec
  import LegendLemmas

  /** The host map as the legend sees it. */
  class MapApi<!V> {
    const conventions: Collaborators<V>
    var legendKeyColumn: nat
    var unfilteredAllLayers: Table<V>
    var objectsChangedListeners: set<object>
    var filterVisibleListeners: set<object>

    constructor (conventions: Collaborators<V>, legendKeyColumn: nat, unfilteredAllLayers: Table<V>)
      ensures this.conventions == conventions && this.legendKeyColumn == legendKeyColumn
      ensures this.unfilteredAllLayers == unfilteredAllLayers
      ensures objectsChangedListeners == {} && filterVisibleListeners == {}
    {
      this.conventions := conventions;
      this.legendKeyColumn := legendKeyColumn;
      this.unfilteredAllLayers := unfilteredAllLayers;
      objectsChangedListeners, filterVisibleListeners := {}, {};
    }

    method RegisterObjectsChangedListener(listener: object)
      modifies this`objectsChangedListeners
      ensures objectsChangedListeners == old(objectsChangedListeners) + {listener}
    {
      objectsChangedListeners := objectsChangedListeners + {listener};
    }

    method RegisterFilterVisibleObjectsListener(listener: object)
      modifies this`filterVisibleListeners
      ensures filterVisibleListeners == old(filterVisibleListeners) + {listener}
    {
      filterVisibleListeners := filterVisibleListeners + {listener};
    }

    method RemoveObjectsChangedListener(listener: object)
      modifies this`objectsChangedListeners
      ensures objectsChangedListeners == old(objectsChangedListeners) - {listener}
    {
      objectsChangedListeners := objectsChangedListeners - {listener};
    }

    method RemoveFilterVisibleObjectsListener(listener: object)
      modifies this`filterVisibleListeners
      ensures filterVisibleListeners == old(filterVisibleListeners) - {listener}
    {
      filterVisibleListeners := filterVisibleListeners - {listener};
    }
  }

  /** The legend panel: a checkbox list of legend keys that filters the map's rows. */
  class LegendPanel<!V> {
    const api: MapApi<V>
    /** The items of the panel's checkbox table. */
    var items: seq<CheckBoxItem>

    /** Opens the panel: an empty list refreshed from the current data, then both listeners registered. */
    constructor (api: MapApi<V>)
      modifies api`objectsChangedListeners, api`filterVisibleListeners
      ensures this.api == api
      ensures items == Refreshed([], api.conventions.legendItemKeys(api.unfilteredAllLayers), api.conventions.equalsStd)
      ensures forall i :: 0 <= i < |items| ==> items[i].selected
      ensures api.objectsChangedListeners == old(api.objectsChangedListeners) + {this}
      ensures api.filterVisibleListeners == old(api.filterVisibleListeners) + {this}
    {
      this.api := api;
      items := [];
      new;
      UpdateLegend();
      api.RegisterObjectsChangedListener(this);
      api.RegisterFilterVisibleObjectsListener(this);
    }

    /** Closes the panel: both listeners are removed from the host. */
    method Dispose()
      modifies api`objectsChangedListeners, api`filterVisibleListeners
      ensures api.objectsChangedListeners == old(api.objectsChangedListeners) - {this}
      ensures api.filterVisibleListeners == old(api.filterVisibleListeners) - {this}
    {
      api.RemoveObjectsChangedListener(this);
      api.RemoveFilterVisibleObjectsListener(this);
    }

    /**
     * Rebuilds the list from the legend keys of the current data: one item per
     * key, in order, selected as the first standardised-equal old item was, or
     * selected when there is none. Old items are dropped.
     */
    method UpdateLegend()
      modifies this`items
      ensures items == Refreshed(old(items), api.conventions.legendItemKeys(api.unfilteredAllLayers), api.conventions.equalsStd)
      ensures Texts(items) == api.conventions.legendItemKeys(api.unfilteredAllLayers)
    {
      var keys := api.conventions.legendItemKeys(api.unfilteredAllLayers);
      var equalsStd := api.conventions.equalsStd;
      var newItems: seq<CheckBoxItem> := [];
      var i := 0;
      while i < |keys|
        invariant 0 <= i <= |keys|
        invariant newItems == Refreshed(items, keys[..i], equalsStd)
      {
        // a new item starts selected and takes the selection of the first matching old item
        var selected := true;
        var j := 0;
        while j < |items|
          invariant 0 <= j <= |items|
          invariant forall k :: 0 <= k < j ==> !equalsStd(items[k].text, keys[i])
        {
          if equalsStd(items[j].text, keys[i]) {
            selected := items[j].selected;
            break;
          }
          j := j + 1;
        }
        assert selected == InheritedSelection(items, keys[i], equalsStd);
        newItems := newItems + [CheckBoxItem(keys[i], selected)];
        i := i + 1;
      }
      assert keys[..i] == keys;
      items := newItems;
      LegendLemmas.TextsOfRefresh(old(items), keys, equalsStd);
    }

    /** The "Show all" and "Hide all" buttons. */
    method ShowHideAll(value: bool)
      modifies this`items
      ensures items == WithAllSelected(old(items), value)
    {
      items := WithAllSelected(items, value);
    }

    /**
     * The host's per-row filter: a row without a legend key is always shown;
     * otherwise it is shown exactly when some selected item's text is
     * standardised-equal to its key. Nothing is changed.
     */
    method AcceptObject(table: Table<V>, row: nat) returns (accept: bool)
      requires row < |table| && api.legendKeyColumn < |table[row]|
      ensures var key := LegendKey(table, row, api.legendKeyColumn, api.conventions.convertToString);
        && (key == None ==> accept)
        && (key != None ==> (accept <==> exists i :: 0 <= i < |items| && items[i].selected && api.conventions.equalStandardised(key, items[i].text)))
        && accept == Accepted(items, key, api.conventions.equalStandardised)
    {
      var key := LegendKey(table, row, api.legendKeyColumn, api.conventions.convertToString);
      if key == None {
        return true;
      }
      var i := 0;
      while i < |items|
        invariant 0 <= i <= |items|
        invariant forall k :: 0 <= k < i ==> !(items[k].selected && api.conventions.equalStandardised(key, items[k].text))
      {
        if items[i].selected {
          if api.conventions.equalStandardised(key, items[i].text) {
            return true;
          }
        }
        i := i + 1;
      }
      return false;
    }

    /**
     * The zoom button of `item`: a copy of exactly the rows of the unfiltered
     * table whose legend key is standardised-equal to the item's text, in row
     * order. The copy is what the host then frames.
     */
    method ButtonClicked(item: CheckBoxItem) returns (copy: Table<V>)
      requires HasColumn(api.unfilteredAllLayers, api.legendKeyColumn)
      ensures var all := api.unfilteredAllLayers;
        var rows := MatchingRows(all, api.legendKeyColumn, item.text, api.conventions, |all|);
        |copy| == |rows| && forall k :: 0 <= k < |rows| ==> copy[k] == all[rows[k]]
    {
      var all := api.unfilteredAllLayers;
      copy := [];
      var n := |all|;
      var i := 0;
      while i < n
        invariant 0 <= i <= n
        invariant var rows := MatchingRows(all, api.legendKeyColumn, item.text, api.conventions, i);
          |copy| == |rows| && forall k :: 0 <= k < |rows| ==> copy[k] == all[rows[k]]
      {
        ghost var before := MatchingRows(all, api.legendKeyColumn, item.text, api.conventions, i);
        var key := LegendKey(all, i, api.legendKeyColumn, api.conventions.convertToString);
        if api.conventions.equalStandardised(key, item.text) {
          copy := copy + [all[i]];
          assert MatchingRows(all, api.legendKeyColumn, item.text, api.conventions, i + 1) == before + [i];
        } else {
          assert MatchingRows(all, api.legendKeyColumn, item.text, api.conventions, i + 1) == before;
        }
        i := i + 1;
      }
    }
  }

  /** Owns the one legend panel of a map and toggles it from the "Show legend" action. */
  class LegendHandler<!V> {
    const api: MapApi<V>
    var panel: LegendPanel?<V>

    /** An open panel belongs to this map and is registered for both notifications. */
    ghost predicate Valid()
      reads this, api
    {
      panel != null ==>
        && panel.api == api
        && panel in api.objectsChangedListeners
        && panel in api.filterVisibleListeners
    }

    constructor (api: MapApi<V>)
      ensures this.api == api && panel == null && Valid()
    {
      this.api := api;
      panel := null;
    }

    /**
     * "Show / hide legend": opens a fresh panel when none is open; otherwise
     * the docked panel is disposed (its listeners removed) and forgotten.
     */
    method ActionPerformed()
      requires Valid()
      modifies this`panel, api`objectsChangedListeners, api`filterVisibleListeners
      ensures Valid()
      ensures (panel == null) == (old(panel) != null)
      ensures old(panel) == null ==>
        && fresh(panel)
        && panel.items == Refreshed([], api.conventions.legendItemKeys(api.unfilteredAllLayers), api.conventions.equalsStd)
        && api.objectsChangedListeners == old(api.objectsChangedListeners) + {panel}
        && api.filterVisibleListeners == old(api.filterVisibleListeners) + {panel}
      ensures old(panel) != null ==>
        && api.objectsChangedListeners == old(api.objectsChangedListeners) - {old(panel)}
        && api.filterVisibleListeners == old(api.filterVisibleListeners) - {old(panel)}
    {
      if panel == null {
        panel := new LegendPanel(api);
      } else {
        // undocking the panel disposes it
        PanelDisposed();
      }
    }

    /** The open panel's dispose override, however the host disposes it: listeners removed, field cleared. */
    method PanelDisposed()
      requires Valid() && panel != null
      modifies this`panel, api`objectsChangedListeners, api`filterVisibleListeners
      ensures Valid() && panel == null
      ensures api.objectsChangedListeners == old(api.objectsChangedListeners) - {old(panel)}
      ensures api.filterVisibleListeners == old(api.filterVisibleListeners) - {old(panel)}
    {
      panel.Dispose();
      panel := null;
    }
  }
}
