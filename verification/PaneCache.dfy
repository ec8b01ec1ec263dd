/** The browser's LRU of terminal panes (internal/webui/static/app.js). */
module PaneCache {
  import opened Prelude
  import opened Recency

  // sessionKey joins origin and id around a NUL character.
  datatype Key = Key(origin: string, id: string)

  const PANE_CAP: nat := 8

  // What is on screen and in the map.
  datatype Panes = Panes(order: seq<Key>, active: Option<Key>, visible: set<Key>)

  // What the page must show after a history of selections.
  function Expected(history: seq<Key>): Panes {
    if history == [] then Panes([], None, {})
    else
      var k := history[|history| - 1];
      Panes(LastN(PANE_CAP, Recent(history)), Some(k), {k})
  }

  class PaneMap {
    var panes: seq<Key>
    var activeKey: Option<Key>
    var visible: set<Key>
    ghost var history: seq<Key>

    function View(): Panes
      reads this
    {
      Panes(panes, activeKey, visible)
    }

    ghost predicate Valid()
      reads this
    {
      View() == Expected(history)
    }

    constructor ()
      ensures Valid() && history == []
    {
      panes, activeKey, visible, history := [], None, {}, [];
    }

    method TouchPane(key: Key)
      requires NoDuplicates(panes)
      modifies this`panes
      ensures panes == Without(old(panes), key) + [key]
    {
      panes := Without(panes, key);
      panes := panes + [key];
    }

    method EvictPane(key: Key)
      requires NoDuplicates(panes) && key in panes
      modifies this`panes, this`activeKey, this`visible
      ensures panes == Without(old(panes), key) && visible == old(visible) - {key}
      ensures activeKey == if old(activeKey) == Some(key) then None else old(activeKey)
    {
      visible := visible - {key};
      panes := Without(panes, key);
      if activeKey == Some(key) {
        activeKey := None;
      }
    }

    // Evict from the oldest end until there is room; the active pane, being the newest, survives.
    method EvictLruIfAtCap()
      requires Consistent(View())
      modifies this`panes, this`activeKey, this`visible
      ensures panes == LastN(PANE_CAP - 1, old(panes))
      ensures activeKey == old(activeKey) && visible == old(visible)
    {
      ghost var before := View();
      while |panes| >= PANE_CAP
        invariant View() == before || (|before.order| == PANE_CAP && View() == before.(order := before.order[1..]))
      {
        EvictPane(panes[0]);
        assert View() == before.(order := before.order[1..]);
      }
    }

    // Make sure the key has a pane; a new one starts hidden, at the newest end.
    method EnsurePane(key: Key)
      requires Consistent(View())
      modifies this`panes, this`activeKey, this`visible
      ensures key in old(panes) ==> panes == old(panes)
      ensures key !in old(panes) ==> panes == LastN(PANE_CAP - 1, old(panes)) + [key]
      ensures activeKey == old(activeKey) && visible == old(visible)
    {
      if key in panes {
        return;
      }
      EvictLruIfAtCap();
      panes := panes + [key];
    }

    method ShowPane(key: Key)
      requires NoDuplicates(panes) && key in panes
      modifies this`panes, this`activeKey, this`visible
      ensures panes == Without(old(panes), key) + [key]
      ensures activeKey == Some(key)
      ensures visible == old(visible) + {key}
                         - (if old(activeKey).Some? && old(activeKey).value != key && old(activeKey).value in old(panes)
                            then {old(activeKey).value} else {})
    {
      if activeKey.Some? && activeKey.value != key && activeKey.value in panes {
        visible := visible - {activeKey.value};
      }
      activeKey := Some(key);
      visible := visible + {key};
      TouchPane(key);
    }

    method EnsureAndShow(key: Key)
      requires Consistent(View())
      modifies this`panes, this`activeKey, this`visible
      ensures panes == if key in old(panes) then Without(old(panes), key) + [key]
                       else LastN(PANE_CAP - 1, old(panes)) + [key]
      ensures activeKey == Some(key) && visible == {key}
    {
      ghost var was := activeKey;
      EnsurePane(key);
      assert was.Some? ==> panes[if key in old(panes) then |panes| - 1 else |panes| - 2] == was.value;
      ShowPane(key);
      if key !in old(panes) {
        AppendedIsRemoved(LastN(PANE_CAP - 1, old(panes)), key);
      }
    }

    // What a click on a session does to the panes.
    method SelectSession(key: Key)
      requires Valid()
      modifies this
      ensures Valid() && history == old(history) + [key]
    {
      ShownIsConsistent(history);
      SelectionKeepsExpected(history, key);
      EnsureAndShow(key);
      assert (history + [key])[..|history|] == history;
      history := history + [key];
    }
  }

  // The newest pane, if any, is the active one and alone visible.
  ghost predicate Consistent(p: Panes) {
    && NoDuplicates(p.order) && |p.order| <= PANE_CAP
    && (p.active.Some? <==> p.order != [])
    && (p.active.None? ==> p.visible == {})
    && (p.active.Some? ==> p.active.value == p.order[|p.order| - 1] && p.visible == {p.active.value})
  }

  lemma ShownIsConsistent(history: seq<Key>)
    ensures Consistent(Expected(history))
  {
    RecentHasNoDuplicates(history);
  }

  // Selecting a key moves or adds it at the newest end, dropping the oldest pane only for lack of room.
  lemma SelectionKeepsExpected(history: seq<Key>, key: Key)
    ensures var before := Expected(history).order;
      Expected(history + [key]).order
      == if key in before then Without(before, key) + [key] else LastN(PANE_CAP - 1, before) + [key]
  {
    var h := history + [key];
    assert h[..|history|] == history;
    var r := Recent(history);
    RecentHasNoDuplicates(history);
    if history == [] {
      assert Recent(history) == [];
    }
    if key in LastN(PANE_CAP, r) {
      LastOfWithoutNear(r, key, PANE_CAP - 1);
    } else {
      LastOfWithoutFar(r, key, PANE_CAP - 1);
      assert LastN(PANE_CAP - 1, LastN(PANE_CAP, r)) == LastN(PANE_CAP - 1, r);
    }
    assert LastN(PANE_CAP, Without(r, key) + [key]) == LastN(PANE_CAP - 1, Without(r, key)) + [key];
  }

  // After any selections: at most eight panes, the newest of which is active and alone visible.
  lemma NewestPaneIsActive(history: seq<Key>)
    requires history != []
    ensures var p, k := Expected(history), history[|history| - 1];
      && 0 < |p.order| <= 8 && NoDuplicates(p.order)
      && p.order[|p.order| - 1] == k && p.active == Some(k) && p.visible == {k}
  {
    ShownIsConsistent(history);
  }

  // The panes stand in the order in which their keys were last selected.
  lemma PanesAreInOrder(history: seq<Key>, i: nat, j: nat)
    requires i < j < |Expected(history).order|
    ensures var p := Expected(history).order;
      p[i] in history && p[j] in history && LastSelected(history, p[i]) < LastSelected(history, p[j])
  {
    var r := Recent(history);
    var off := |r| - |Expected(history).order|;
    LastNAt(PANE_CAP, r, i);
    LastNAt(PANE_CAP, r, j);
    RecentIsOrderOfLastSelection(history, off + i, off + j);
  }

  // A selected key is without a pane only if eight other keys have been selected since.
  lemma EvictedKeysAreOlder(history: seq<Key>, k: Key, i: nat)
    requires k in history && k !in Expected(history).order && i < |Expected(history).order|
    ensures var p := Expected(history).order;
      |p| == 8 && p[i] in history && LastSelected(history, k) < LastSelected(history, p[i])
  {
    var r, p := Recent(history), Expected(history).order;
    var off := |r| - |p|;
    RecentIsSelected(history, k);
    assert k in r && r == r[..off] + p;
    var q :| 0 <= q < off && r[q] == k;
    RecentIsOrderOfLastSelection(history, q, off + i);
  }
}
