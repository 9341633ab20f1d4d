/**
 The navigation sidebar (`CustomSidebar`) and its entries (`SidebarItem`).
 The sidebar keeps a table from entry id to entry object, the id of the
 current entry, and the order of the widgets in its vertical layout (the
 entries and one stretchable spacer). Each entry keeps its selected and
 hovered flags and the icon last chosen for them.
 */
module Sidebar {
  import opened Wrappers
  import opened SidebarIcons
  import PosixPath

  /** One navigation entry. */
  class SidebarItem {
    /** The id its `clicked` signal is connected to (`on_item_clicked(id, item)`). */
    const boundId: string
    const text: string
    const iconText: string
    const regularPath: Option<string>
    const filledPath: Option<string>
    const vertical: bool
    /** The icon files present on disk. */
    const assets: set<string>
    var selected: bool
    var hovered: bool
    var icon: Icon

    /** The icon on display is the one `update_icon` chooses for the present flags. */
    ghost predicate Valid()
      reads this
    {
      icon == ChooseIcon(hovered, selected, regularPath, filledPath, assets)
    }

    constructor (boundId: string, text: string, iconText: string, regularPath: Option<string>,
                 filledPath: Option<string>, vertical: bool, assets: set<string>)
      ensures Valid() && !selected && !hovered && this.boundId == boundId
      ensures this.text == text && this.iconText == iconText && this.vertical == vertical
      ensures this.regularPath == regularPath && this.filledPath == filledPath && this.assets == assets
    {
      this.boundId, this.text, this.iconText, this.vertical := boundId, text, iconText, vertical;
      this.regularPath, this.filledPath, this.assets := regularPath, filledPath, assets;
      selected, hovered := false, false;
      icon := ChooseIcon(false, false, regularPath, filledPath, assets);
    }

    /** `update_icon`. */
    method UpdateIcon()
      modifies this`icon
      ensures Valid()
    {
      icon := ChooseIcon(hovered, selected, regularPath, filledPath, assets);
    }

    /** `set_selected`: record the flag and refresh the icon. */
    method SetSelected(b: bool)
      modifies this`selected, this`icon
      ensures Valid() && selected == b && hovered == old(hovered)
    {
      selected := b;
      UpdateIcon();
    }

    /** `enterEvent`: the pointer is over the entry. */
    method Enter()
      modifies this`hovered, this`icon
      ensures Valid() && hovered && selected == old(selected)
    {
      hovered := true;
      UpdateIcon();
    }

    /** `leaveEvent`: the pointer has left the entry. */
    method Leave()
      modifies this`hovered, this`icon
      ensures Valid() && !hovered && selected == old(selected)
    {
      hovered := false;
      UpdateIcon();
    }
  }

  /** A widget of the sidebar's vertical layout. */
  datatype Entry = ItemEntry(id: string) | Spacer

  /** An `item_clicked` notification, with the current entry at the moment it was sent. */
  datatype Click = Click(id: string, currentThen: Option<string>)

  /** No widget occurs twice. */
  ghost predicate Distinct(s: seq<Entry>) {
    forall i, j :: 0 <= i < j < |s| ==> s[i] != s[j]
  }

  /** `layout.insertWidget(count - 2, w)`: a negative index appends. */
  function InsertBeforeLastTwo(layout: seq<Entry>, e: Entry): (r: seq<Entry>)
    ensures |r| == |layout| + 1
  {
    if |layout| < 2 then layout + [e]
    else layout[..|layout| - 2] + [e] + layout[|layout| - 2..]
  }

  /** `layout.removeWidget(w)`. */
  function Without(layout: seq<Entry>, e: Entry): (r: seq<Entry>)
    ensures |r| <= |layout|
  {
    if layout == [] then []
    else if layout[0] == e then Without(layout[1..], e)
    else [layout[0]] + Without(layout[1..], e)
  }

  /** The layout holds the spacer and the entries of exactly the ids `ids`, each once. */
  ghost predicate LaysOut(layout: seq<Entry>, ids: set<string>) {
    && Distinct(layout)
    && Spacer in layout
    && (forall e :: e in layout && e.ItemEntry? ==> e.id in ids)
    && (forall k :: k in ids ==> ItemEntry(k) in layout)
  }

  /** Inserting adds exactly the new widget. */
  lemma InsertMembers(layout: seq<Entry>, e: Entry)
    ensures forall x :: x in InsertBeforeLastTwo(layout, e) <==> x in layout || x == e
  {
    var r := InsertBeforeLastTwo(layout, e);
    if |layout| >= 2 {
      assert layout == layout[..|layout| - 2] + layout[|layout| - 2..];
    }
  }

  /** Removing takes away exactly the given widget. */
  lemma {:induction false} WithoutMembers(layout: seq<Entry>, e: Entry)
    ensures forall x :: x in Without(layout, e) <==> x in layout && x != e
  {
    if layout != [] {
      WithoutMembers(layout[1..], e);
      assert forall x :: x in layout <==> x == layout[0] || x in layout[1..];
    }
  }

  lemma {:induction false} WithoutKeepsDistinct(layout: seq<Entry>, e: Entry)
    requires Distinct(layout)
    ensures Distinct(Without(layout, e))
  {
    if layout != [] {
      assert Distinct(layout[1..]) by {
        forall i, j | 0 <= i < j < |layout[1..]| ensures layout[1..][i] != layout[1..][j] {
          assert layout[1..][i] == layout[i + 1] && layout[1..][j] == layout[j + 1];
        }
      }
      WithoutKeepsDistinct(layout[1..], e);
      if layout[0] != e {
        var rest := Without(layout[1..], e);
        assert layout[0] !in layout[1..] by {
          forall j | 0 <= j < |layout[1..]| ensures layout[1..][j] != layout[0] {
            assert layout[1..][j] == layout[j + 1];
          }
        }
        WithoutMembers(layout[1..], e);
        assert layout[0] !in rest;
        var r := [layout[0]] + rest;
        forall i, j | 0 <= i < j < |r| ensures r[i] != r[j] {
          if i == 0 { assert r[j] == rest[j - 1]; assert rest[j - 1] in rest; }
          else { assert r[i] == rest[i - 1] && r[j] == rest[j - 1]; }
        }
      }
    }
  }

  /** Inserting a widget that is not yet laid out keeps the layout free of repeats. */
  lemma InsertKeepsDistinct(layout: seq<Entry>, e: Entry)
    requires Distinct(layout) && e !in layout
    ensures Distinct(InsertBeforeLastTwo(layout, e))
  {
    var r := InsertBeforeLastTwo(layout, e);
    var n := if |layout| < 2 then |layout| else |layout| - 2;
    assert r == layout[..n] + [e] + layout[n..];
    forall i, j | 0 <= i < j < |r| ensures r[i] != r[j] {
      if i == n { assert r[j] == layout[j - 1]; }
      else if j == n { assert r[i] == layout[i]; }
      else {
        var i' := if i < n then i else i - 1;
        var j' := if j < n then j else j - 1;
        assert r[i] == layout[i'] && r[j] == layout[j'];
      }
    }
  }

  /** Laying out the entry of a new id keeps the layout in step with the ids. */
  lemma AddKeepsLayout(layout: seq<Entry>, ids: set<string>, id: string)
    requires LaysOut(layout, ids) && id !in ids
    ensures LaysOut(InsertBeforeLastTwo(layout, ItemEntry(id)), ids + {id})
  {
    InsertKeepsDistinct(layout, ItemEntry(id));
    InsertMembers(layout, ItemEntry(id));
  }

  /** Taking out the entry of an id keeps the layout in step with the remaining ids. */
  lemma RemoveKeepsLayout(layout: seq<Entry>, ids: set<string>, id: string)
    requires LaysOut(layout, ids)
    ensures LaysOut(Without(layout, ItemEntry(id)), ids - {id})
  {
    WithoutKeepsDistinct(layout, ItemEntry(id));
    WithoutMembers(layout, ItemEntry(id));
  }

  /** Where `add_item` puts a new entry: just before the spacer when spacer and settings close the layout. */
  lemma InsertGoesBeforeSpacer(front: seq<Entry>, last: Entry, e: Entry)
    ensures InsertBeforeLastTwo(front + [Spacer, last], e) == front + [e, Spacer, last]
  {
    var layout := front + [Spacer, last];
    assert layout[..|layout| - 2] == front;
    assert layout[|layout| - 2..] == [Spacer, last];
  }

  /** The initial layout: four entries, the spacer, then settings. */
  const InitialLayout: seq<Entry> :=
    [ItemEntry("home"), ItemEntry("files"), ItemEntry("recent"), ItemEntry("favorites"), Spacer, ItemEntry("settings")]

  const InitialIds: set<string> := {"home", "files", "recent", "favorites", "settings"}

  lemma InitialLayoutValid()
    ensures LaysOut(InitialLayout, InitialIds)
  {
    assert InitialLayout[4] == Spacer;
    forall i, j | 0 <= i < j < |InitialLayout| ensures InitialLayout[i] != InitialLayout[j] {
    }
  }

  /** Path of the home entry's icon of the given style under the application directory. */
  function HomeIcon(iconDir: string, style: string): string {
    PosixPath.Join(PosixPath.Join(iconDir, "icons"), "ic_fluent_home_28_" + style + ".svg")
  }

  /** The five entries `init_ui` creates, none selected yet. */
  method NewFixedItems(iconDir: string, assets: set<string>) returns (items: map<string, SidebarItem>)
    ensures items.Keys == InitialIds && fresh(items.Values)
    ensures forall k :: k in items ==>
              items[k].boundId == k && items[k].Valid() && items[k].assets == assets &&
              !items[k].selected && !items[k].hovered
    ensures items["home"].vertical && items["home"].text == "主页"
    ensures items["home"].regularPath == Some(HomeIcon(iconDir, "regular"))
    ensures items["home"].filledPath == Some(HomeIcon(iconDir, "filled"))
  {
    var home := new SidebarItem("home", "主页", "", Some(HomeIcon(iconDir, "regular")),
                                Some(HomeIcon(iconDir, "filled")), true, assets);
    var files := new SidebarItem("files", "本地", "📁", None, None, false, assets);
    var recent := new SidebarItem("recent", "我的文件", "🕒", None, None, false, assets);
    var favorites := new SidebarItem("favorites", "进行中", "⭐", None, None, false, assets);
    var settings := new SidebarItem("settings", "设置", "⚙️", None, None, false, assets);
    items := map["home" := home, "files" := files, "recent" := recent, "favorites" := favorites,
                 "settings" := settings];
  }

  /** The sidebar. */
  class CustomSidebar {
    var items: map<string, SidebarItem>
    var current: Option<string>
    var layout: seq<Entry>
    var clicked: seq<Click>
    const assets: set<string>

    /**
     Each entry is bound to its own id (so distinct ids hold distinct
     objects) and shows the icon its flags call for.
     */
    ghost predicate ItemsValid()
      reads this, items.Values
    {
      forall k :: k in items ==> items[k].boundId == k && items[k].Valid() && items[k].assets == assets
    }

    /** At most one entry is selected, and it is the current one. */
    ghost predicate SelectionValid()
      reads this, items.Values
    {
      forall k :: k in items && items[k].selected ==> current == Some(k)
    }

    /** The layout holds the spacer and each entry exactly once, and nothing else. */
    ghost predicate LayoutValid()
      reads this
    {
      LaysOut(layout, items.Keys)
    }

    ghost predicate Valid()
      reads this, items.Values
    {
      ItemsValid() && SelectionValid() && LayoutValid()
    }

    /** `__init__` and `init_ui`: the fixed entries, with "home" selected. */
    constructor (iconDir: string, assets: set<string>)
      ensures Valid()
      ensures items.Keys == InitialIds && fresh(items.Values)
      ensures current == Some("home") && items["home"].selected
      ensures forall k :: k in items && k != "home" ==> !items[k].selected
      ensures layout == InitialLayout && clicked == []
    {
      var fixed := NewFixedItems(iconDir, assets);
      items := fixed;
      current := None;
      layout := InitialLayout;
      clicked := [];
      this.assets := assets;
      new;
      InitialLayoutValid();
      SetCurrentItem("home");
    }

    /**
     `set_current_item`, with the deselection test corrected to "there is a
     current entry" (see `SelectAsWritten` for the test as written).
     */
    method SetCurrentItem(id: string)
      requires Valid()
      modifies items.Values
      modifies this`current
      ensures Valid()
      ensures items == old(items) && layout == old(layout) && clicked == old(clicked)
      ensures id in items ==> current == Some(id) && items[id].selected
      ensures id in items ==> forall k :: k in items && k != id ==> !items[k].selected
      ensures id !in items ==> current == old(current)
      ensures id !in items ==> forall k :: k in items ==> !items[k].selected
      ensures forall k :: k in items ==> items[k].hovered == old(items[k].hovered)
    {
      ClearSelection();
      if id in items {
        items[id].SetSelected(true);
        current := Some(id);
      }
    }

    /** The first half of `set_current_item`: deselect the current entry, if there is one. */
    method ClearSelection()
      requires Valid()
      modifies items.Values
      ensures ItemsValid()
      ensures forall k :: k in items ==> !items[k].selected
      ensures forall k :: k in items ==> items[k].hovered == old(items[k].hovered)
    {
      if current.Some? && current.value in items {
        items[current.value].SetSelected(false);
      }
    }

    /** `on_item_clicked`: change the selection, then notify `item_clicked(id)`. */
    method OnItemClicked(id: string)
      requires Valid()
      modifies items.Values
      modifies this`current, this`clicked
      ensures Valid()
      ensures items == old(items) && layout == old(layout)
      ensures id in items ==> current == Some(id) && items[id].selected
      ensures id in items ==> forall k :: k in items && k != id ==> !items[k].selected
      ensures id !in items ==> current == old(current)
      ensures id !in items ==> forall k :: k in items ==> !items[k].selected
      ensures clicked == old(clicked) + [Click(id, current)]
      ensures forall k :: k in items ==> items[k].hovered == old(items[k].hovered)
    {
      SetCurrentItem(id);
      clicked := clicked + [Click(id, current)];
    }

    /** `add_item`: a new, unselected entry laid out just before the spacer. */
    method AddItem(id: string, text: string, iconText: string)
      requires Valid()
      modifies this`items, this`layout
      ensures Valid()
      ensures current == old(current) && clicked == old(clicked)
      ensures id in old(items) ==> items == old(items) && layout == old(layout)
      ensures id !in old(items) ==> id in items && items == old(items)[id := items[id]]
      ensures id !in old(items) ==> fresh(items[id]) && !items[id].selected && items[id].text == text
      ensures id !in old(items) ==> !items[id].hovered && items[id].iconText == iconText && items[id].Valid()
      ensures id !in old(items) ==> layout == InsertBeforeLastTwo(old(layout), ItemEntry(id))
    {
      if id in items {
        return;
      }
      var item := new SidebarItem(id, text, iconText, None, None, false, assets);
      Enroll(id, item);
    }

    /** The second half of `add_item`: put an unselected entry into the table and the layout. */
    method Enroll(id: string, item: SidebarItem)
      requires Valid() && id !in items
      requires item.boundId == id && item.Valid() && item.assets == assets && !item.selected
      modifies this`items, this`layout
      ensures Valid()
      ensures items == old(items)[id := item]
      ensures layout == InsertBeforeLastTwo(old(layout), ItemEntry(id))
    {
      AddKeepsLayout(layout, items.Keys, id);
      ghost var before := items;
      items := items[id := item];
      layout := InsertBeforeLastTwo(layout, ItemEntry(id));
      forall k | k in items
        ensures items[k].boundId == k && items[k].Valid() && items[k].assets == assets
        ensures items[k].selected ==> current == Some(k)
      {
        if k != id { assert items[k] == before[k]; }
      }
    }

    /** `remove_item`: drop the entry; if it was current, fall back to "home". */
    method RemoveItem(id: string)
      requires Valid()
      modifies items.Values
      modifies this`items, this`layout, this`current
      ensures Valid()
      ensures clicked == old(clicked)
      ensures id !in old(items) ==> items == old(items) && layout == old(layout) && current == old(current)
      ensures id !in old(items) || old(current) != Some(id) ==>
                current == old(current) &&
                forall k :: k in items ==> k in old(items) && items[k].selected == old(items[k].selected)
      ensures forall k :: k in items ==> k in old(items) && items[k].hovered == old(items[k].hovered)
      ensures id in old(items) ==> items == old(items) - {id} && layout == Without(old(layout), ItemEntry(id))
      ensures id in old(items) && old(current) == Some(id) && "home" in items ==>
                current == Some("home") && items["home"].selected &&
                forall k :: k in items && k != "home" ==> !items[k].selected
      ensures id in old(items) && old(current) == Some(id) && "home" !in items ==>
                current == old(current) && forall k :: k in items ==> !items[k].selected
    {
      if id in items {
        Forget(id);
        if current == Some(id) {
          SetCurrentItem("home");
        }
      }
    }

    /** The first half of `remove_item`: take the entry out of the layout and the table. */
    method Forget(id: string)
      requires Valid() && id in items
      modifies this`items, this`layout
      ensures Valid()
      ensures items == old(items) - {id} && layout == Without(old(layout), ItemEntry(id))
    {
      RemoveKeepsLayout(layout, items.Keys, id);
      layout := Without(layout, ItemEntry(id));
      items := items - {id};
    }
  }

  // ---------------------------------------------------------------------
  // The deselection test as the source writes it.

  /**
   `set_current_item` on a table of selected flags, with the source's test
   `if self.current_item and ...`: an empty id is falsy, so when the
   current entry has id "" it is never deselected.
   */
  function SelectAsWritten(selected: map<string, bool>, current: Option<string>, id: string)
    : (r: (map<string, bool>, Option<string>))
    ensures r.0.Keys == selected.Keys
    ensures id in selected ==> r.1 == Some(id) && r.0[id]
    ensures id !in selected ==> r.1 == current
  {
    var cleared := if current.Some? && current.value != "" && current.value in selected
                   then selected[current.value := false] else selected;
    if id in cleared then (cleared[id := true], Some(id)) else (cleared, current)
  }

  /** With "" current, selecting "home" leaves two entries selected. */
  lemma EmptyIdStaysSelected()
    ensures var r := SelectAsWritten(map["" := true, "home" := false], Some(""), "home");
            r.0[""] && r.0["home"]
  {
  }
}
