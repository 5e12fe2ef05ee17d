# Legend panel of the ODL Studio map

This project models the legend side panel of the ODL Studio map
(`LegendPlugin`): a checkbox list of the map's legend keys. It keeps the
user's show/hide choice per key across data refreshes, filters the map's
rows by that choice, and zooms the map to all rows of one key. The "Show
legend" action opens and closes the panel.

Files:

- `wrappers.dfy`: `Option`. `None` stands for a Java `null`.
- `legend_spec.dfy` (module `LegendSpec`): the values and the functions
  that specify the panel. Rows are sequences of nullable cells. A checkbox
  item is a `(text, selected)` pair. The collaborators the file calls are a
  `Collaborators` record of uninterpreted functions:
  - `Strings.equalsStd`, used by the refresh;
  - the host's `equalStandardised`, used by the filter and the zoom button;
  - the host's conversion of a cell value to a string;
  - the ordered keys that `Legend.getLegendItemImages` returns for a table.
- `legend_lemmas.dfy` (module `LegendLemmas`): properties that connect the
  refresh, the filter, the show/hide-all buttons and the zoom button.
- `legend_plugin.dfy` (module `LegendPlugin`): the classes. `MapApi` is the
  host as the panel sees it. `LegendPanel` holds the checkbox items and has
  the operations. `LegendHandler` holds the nullable `panel` field and
  toggles it.

The two standardised comparisons are kept as two relations. Lemmas that need
them to agree say so with `Coincide`. Lemmas that need an equivalence
relation say so with `Equivalence` or `Reflexive`. Nothing else is
assumed about them. In particular `equalStandardised` receives a null first
argument when the zoom button meets a row without a key.

Behaviour of `LegendPlugin` that the model keeps:

- The selection state is the checkbox list itself. A new item takes the flag
  of the FIRST old item whose text is `equalsStd` to its own (lines 186-192).
  Later old items with equivalent texts are not consulted, so
  `RefreshVisibility` needs the old texts to be pairwise non-equivalent.
  `RefreshCanShowKeyWithHiddenDuplicate` shows what happens without that.
- The panel lists the keys that `Legend.getLegendItemImages` returns, as given
  (lines 174-183). It removes no duplicates itself, and the model does not
  assume the keys are distinct.
- A non-null cell whose conversion to a string yields null gets no key
  (lines 232-237), so the filter shows that row, like a row with a null cell.
  The conversion is `V -> Option<string>` for this reason.
- A key that matches no item is rejected by the filter (line 223).

## Model

| member | source | states |
|---|---|---|
| LegendSpec.LegendKey | com.opendoorlogistics.studio/src/com/opendoorlogistics/studio/components/map/v2/plugins/LegendPlugin.java:227-238 | a null cell gives no key; any other cell gives the host's string conversion of its value |
| LegendSpec.LegendKeyAbsentIffNullCell | com.opendoorlogistics.studio/src/com/opendoorlogistics/studio/components/map/v2/plugins/LegendPlugin.java:227-238 | when the conversion never yields null, a row has no key exactly when its legend-key cell is null |
| LegendSpec.FirstMatch | com.opendoorlogistics.studio/src/com/opendoorlogistics/studio/components/map/v2/plugins/LegendPlugin.java:186-192 | the search over the old items stops at the first item whose text is equalsStd to the new text; it finds none only when no old item matches |
| LegendSpec.WithAllSelected | com.opendoorlogistics.studio/src/com/opendoorlogistics/studio/components/map/v2/plugins/LegendPlugin.java:118-131 | show all / hide all set every item's selection to the given value and keep every text |
| LegendSpec.MatchingRows | com.opendoorlogistics.studio/src/com/opendoorlogistics/studio/components/map/v2/plugins/LegendPlugin.java:155-161 | the rows the zoom loop copies: increasing row indices, containing a row exactly when its key is standardised-equal to the clicked text |
| LegendLemmas.TextsOfRefresh | com.opendoorlogistics.studio/src/com/opendoorlogistics/studio/components/map/v2/plugins/LegendPlugin.java:177-196 | the refreshed list's texts are exactly the legend keys, in order, so no old item survives unless a key re-creates it |
| LegendPlugin.LegendPanel.UpdateLegend | com.opendoorlogistics.studio/src/com/opendoorlogistics/studio/components/map/v2/plugins/LegendPlugin.java:173-198 | the new list has one item per legend key, with that key as text, in key order; each item is selected as the first equalsStd old item was, or selected if none matches; no old item is kept |
| LegendLemmas.RefreshWithSameKeysKeepsItems | com.opendoorlogistics.studio/src/com/opendoorlogistics/studio/components/map/v2/plugins/LegendPlugin.java:177-196 | a refresh whose keys are the texts already listed, none equalsStd to an earlier one, gives back the same list with the same selections |
| LegendLemmas.RefreshShowsKeptOrNewKeys | com.opendoorlogistics.studio/src/com/opendoorlogistics/studio/components/map/v2/plugins/LegendPlugin.java:182-192 | after a refresh, a key that some fresh entry matches is shown unless an old item matching it was hidden; new keys start shown |
| LegendLemmas.RefreshHidesLeftKeys | com.opendoorlogistics.studio/src/com/opendoorlogistics/studio/components/map/v2/plugins/LegendPlugin.java:177-196 | after any refresh, a key that no fresh legend entry matches is hidden |
| LegendLemmas.RefreshHidesNothingNew | com.opendoorlogistics.studio/src/com/opendoorlogistics/studio/components/map/v2/plugins/LegendPlugin.java:186-192 | after a refresh over distinct old texts, every old item that a shown key matches was shown |
| LegendLemmas.RefreshCanShowKeyWithHiddenDuplicate | com.opendoorlogistics.studio/src/com/opendoorlogistics/studio/components/map/v2/plugins/LegendPlugin.java:186-192 | when old texts are not distinct, a refresh can keep a key shown although an equivalent old item had hidden it: the first match wins |
| LegendLemmas.RefreshVisibility | com.opendoorlogistics.studio/src/com/opendoorlogistics/studio/components/map/v2/plugins/LegendPlugin.java:173-198 | with distinct old texts, after a refresh a key is shown iff a fresh entry matches it and no old item matching it was hidden; keys gone from the legend become hidden |
| LegendPlugin.LegendPanel.AcceptObject | com.opendoorlogistics.studio/src/com/opendoorlogistics/studio/components/map/v2/plugins/LegendPlugin.java:208-224 | a row without a key is accepted whatever the items are; a row with a key is accepted iff some selected item's text is standardised-equal to the key, so an unknown key is rejected; the method modifies nothing |
| LegendLemmas.ShownItemAccepts | com.opendoorlogistics.studio/src/com/opendoorlogistics/studio/components/map/v2/plugins/LegendPlugin.java:215-219 | one selected item that matches a key is enough for the filter to accept that key |
| LegendLemmas.HideAllHidesEveryKey | com.opendoorlogistics.studio/src/com/opendoorlogistics/studio/components/map/v2/plugins/LegendPlugin.java:125-131 | after "Hide all" every row that has a key is rejected |
| LegendLemmas.ShowAllShowsListedKeys | com.opendoorlogistics.studio/src/com/opendoorlogistics/studio/components/map/v2/plugins/LegendPlugin.java:118-124 | after "Show all" a row with a key is accepted iff some item's text matches the key |
| LegendPlugin.LegendPanel.ShowHideAll | com.opendoorlogistics.studio/src/com/opendoorlogistics/studio/components/map/v2/plugins/LegendPlugin.java:118-131 | the item list after the show all / hide all buttons |
| LegendPlugin.LegendPanel.ButtonClicked | com.opendoorlogistics.studio/src/com/opendoorlogistics/studio/components/map/v2/plugins/LegendPlugin.java:150-164 | the copy holds exactly the unfiltered rows whose key is standardised-equal to the clicked item's text, in row order; the source table is not changed |
| LegendLemmas.ZoomedRowsAreShown | com.opendoorlogistics.studio/src/com/opendoorlogistics/studio/components/map/v2/plugins/LegendPlugin.java:153-161 | zooming to a selected item of the list only frames rows that the filter accepts |
| LegendPlugin.LegendPanel.constructor | com.opendoorlogistics.studio/src/com/opendoorlogistics/studio/components/map/v2/plugins/LegendPlugin.java:99-139 | a new panel starts from an empty list refreshed from the current data, so every item is selected, and it registers for both host notifications |
| LegendPlugin.LegendPanel.Dispose | com.opendoorlogistics.studio/src/com/opendoorlogistics/studio/components/map/v2/plugins/LegendPlugin.java:142-146 | disposing removes the panel from both listener registries and leaves the other listeners |
| LegendPlugin.LegendHandler.constructor | com.opendoorlogistics.studio/src/com/opendoorlogistics/studio/components/map/v2/plugins/LegendPlugin.java:52-64 | a new handler has no panel |
| LegendPlugin.LegendHandler.ActionPerformed | com.opendoorlogistics.studio/src/com/opendoorlogistics/studio/components/map/v2/plugins/LegendPlugin.java:70-88 | with no panel open, the action creates, refreshes and registers a fresh one; otherwise it disposes the open panel, unregisters it and clears the field, so open and close alternate |
| LegendPlugin.LegendHandler.PanelDisposed | com.opendoorlogistics.studio/src/com/opendoorlogistics/studio/components/map/v2/plugins/LegendPlugin.java:74-78 | however the host disposes the open panel, its listeners are removed and the handler's field is cleared, so the next action opens a new panel |
| LegendPlugin.MapApi.RegisterObjectsChangedListener | com.opendoorlogistics.studio/src/com/opendoorlogistics/studio/components/map/v2/plugins/LegendPlugin.java:136-136 | the host adds the panel to its objects-changed listeners |
| LegendPlugin.MapApi.RegisterFilterVisibleObjectsListener | com.opendoorlogistics.studio/src/com/opendoorlogistics/studio/components/map/v2/plugins/LegendPlugin.java:137-137 | the host adds the panel to its visibility-filter listeners |
| LegendPlugin.MapApi.RemoveObjectsChangedListener | com.opendoorlogistics.studio/src/com/opendoorlogistics/studio/components/map/v2/plugins/LegendPlugin.java:144-144 | the host removes the panel from its objects-changed listeners |
| LegendPlugin.MapApi.RemoveFilterVisibleObjectsListener | com.opendoorlogistics.studio/src/com/opendoorlogistics/studio/components/map/v2/plugins/LegendPlugin.java:145-145 | the host removes the panel from its visibility-filter listeners |

## Left out

- Swing layout, widgets, colours, sizes and icons (lines 95-132 apart from the two show/hide actions). They are user interface only.
- Preview images of `Legend.getLegendItemImages` and `PluginUtils.toDrawables`. Only the ordered key list is modelled, as an uninterpreted function of the unfiltered table.
- The implementations of `Strings.equalsStd`, `equalStandardised` and `convertValue`. They are foreign calls, modelled as uninterpreted parameters.
- `CheckboxTable` internals. The panel holds the item list directly. `LegendPanel.ShowHideAll` assumes `showHideAll` sets every item's selection to the given value. A single checkbox toggle by the user, which happens inside `CheckboxTable`, is not modelled.
- The null test on the table's items at line 186. The table is created with an empty list at line 104 and only ever given fresh lists, so the list is never null. A null list would act like an empty one: every new item is selected.
- Items are values, not objects. Aliasing between the item objects the table holds and those the panel built is not modelled.
- The table's column layout as created by `createTable`. A table is its rows of cells, and the copy is the returned sequence of rows.
- Host plumbing: `updateObjectFiltering` (lines 138 and 169), `setViewToBestFit` (line 162), action registration through `PluginUtils` (lines 51-61), and `setSidePanel` (lines 81 and 85). The host's undocking at line 85 disposes the old panel. The model writes that as a direct call of `PanelDisposed`, the dispose override.
- The objects-changed callback (lines 201-204). It only runs `updateLegend`, which is `UpdateLegend`.
- Listener priorities (the `0` at lines 136-137). Registries are sets of listeners.
