/** Menu configuration trees: `MenuConfig` and its protocol flavour
    `ProtocolConfig`, and the recursive `add` that builds a protocol menu
    from the nested items of the menu configuration file. */
module Menus {
  import opened Wrappers

  /** `MenuConfig` or `ProtocolConfig`; a submenu has the kind of its parent
      (`type(self)(...)`). */
  datatype MenuKind = PlainMenu | ProtocolMenu

  /** A menu node and its submenus in order (`childs`). */
  datatype Menu = Menu(kind: MenuKind, text: Option<string>, value: Option<string>,
                       icon: Option<string>, tag: Option<string>, openItem: bool,
                       childs: seq<Menu>)

  /** The keyword arguments a menu item may carry; `None` means the keyword
      was not given. A given `icon` may itself be `None`. */
  datatype MenuArgs = MenuArgs(icon: Option<Option<string>>, tag: Option<string>, openItem: Option<bool>)

  const NoArgs := MenuArgs(None, None, None)

  /** The constructors. A plain menu opens only when told to; a protocol
      menu, unless told, opens when its tag is not `protocol_base`. */
  function NewMenu(kind: MenuKind, text: Option<string>, value: Option<string>, args: MenuArgs): (m: Menu)
    ensures m.kind == kind && m.text == text && m.value == value && m.tag == args.tag && m.childs == []
    ensures m.icon == (if args.icon.Some? then args.icon.value else None)
    ensures args.openItem.Some? ==> m.openItem == args.openItem.value
    ensures args.openItem.None? ==> (m.openItem <==> kind == ProtocolMenu && args.tag != Some("protocol_base"))
  {
    var openItem :=
      if args.openItem.Some? then args.openItem.value
      else if kind == ProtocolMenu then args.tag != Some("protocol_base")
      else false;
    Menu(kind, text, value, if args.icon.Some? then args.icon.value else None, args.tag, openItem, [])
  }

  /** The icon a protocol submenu takes from its tag when none is given. */
  function TagIcon(tag: Option<string>): Option<string>
  {
    if tag == Some("protocol") then Some("python_file.gif")
    else if tag == Some("protocol_base") then Some("class_obj.gif")
    else None
  }

  /** `ProtocolConfig.addSubMenu`'s icon default: kept when given, otherwise
      chosen by tag. */
  function ProtocolIconArgs(args: MenuArgs): (a: MenuArgs)
    ensures a.tag == args.tag && a.openItem == args.openItem
    ensures args.icon.Some? ==> a.icon == args.icon
    ensures args.icon.None? && args.tag == Some("protocol") ==> a.icon == Some(Some("python_file.gif"))
    ensures args.icon.None? && args.tag == Some("protocol_base") ==> a.icon == Some(Some("class_obj.gif"))
    ensures args.icon.None? && args.tag != Some("protocol") && args.tag != Some("protocol_base") ==> a.icon == None
  {
    if args.icon.Some? then args
    else if args.tag == Some("protocol") then args.(icon := Some(Some("python_file.gif")))
    else if args.tag == Some("protocol_base") then args.(icon := Some(Some("class_obj.gif")))
    else args
  }

  function Len(menu: Menu): nat
  {
    |menu.childs|
  }

  predicate IsEmpty(menu: Menu)
  {
    Len(menu) == 0
  }

  /** `addSubMenu`: a new submenu of the same kind, appended after the
      existing children; returns the updated menu and the submenu. A
      protocol submenu keeps an explicit icon and otherwise takes the icon
      of its tag; it opens unless told otherwise or tagged `protocol_base`.
      A plain submenu gets no icon it was not given and stays closed unless
      told. The text may be `None` (a `text=None` argument). */
  function AddSubMenu(menu: Menu, text: Option<string>, value: Option<string>, args: MenuArgs): (r: (Menu, Menu))
    ensures var (updated, sub) := r;
            && Len(updated) == Len(menu) + 1 && !IsEmpty(updated)
            && updated.childs[..Len(menu)] == menu.childs && updated.childs[Len(menu)] == sub
            && updated == menu.(childs := updated.childs)
            && sub.kind == menu.kind && sub.text == text && sub.value == value
            && sub.tag == args.tag && IsEmpty(sub)
            && (args.icon.Some? ==> sub.icon == args.icon.value)
            && (menu.kind == ProtocolMenu && args.icon.None? ==> sub.icon == TagIcon(args.tag))
            && (menu.kind == PlainMenu && args.icon.None? ==> sub.icon == None)
            && (args.openItem.Some? ==> sub.openItem == args.openItem.value)
            && (args.openItem.None? ==>
                  (sub.openItem <==> menu.kind == ProtocolMenu && args.tag != Some("protocol_base")))
  {
    var effective := if menu.kind == ProtocolMenu then ProtocolIconArgs(args) else args;
    var sub := NewMenu(menu.kind, text, value, effective);
    (menu.(childs := menu.childs + [sub]), sub)
  }

  // ---------------------------------------------------------------------
  // The recursive `add`

  /** One item of the configuration file: the keywords of `addSubMenu` and
      the nested `children`. `text` is `None` when the item has no `text`
      key (a missing argument) and `Some(None)` when it is given as null. */
  datatype MenuItem = MenuItem(text: Option<Option<string>>, value: Option<string>, args: MenuArgs,
                               children: seq<MenuItem>)

  datatype MenuError = MissingText

  /** `add(menu, item)`: the item becomes the menu's last submenu, with its
      children added to it recursively. */
  function Add(menu: Menu, item: MenuItem): Result<Menu, MenuError>
    decreases item, 1
  {
    if item.text.None? then Err(MissingText)
    else
      var (_, sub) := AddSubMenu(menu, item.text.value, item.value, item.args);
      match AddAll(sub, item.children)
      case Err(e) => Err(e)
      case Ok(filled) => Ok(menu.(childs := menu.childs + [filled]))
  }

  /** `for child in children: add(menu, child)`. */
  function AddAll(menu: Menu, items: seq<MenuItem>): Result<Menu, MenuError>
    decreases items, 0
  {
    if items == [] then Ok(menu)
    else
      match Add(menu, items[0])
      case Err(e) => Err(e)
      case Ok(next) => AddAll(next, items[1..])
  }

  /** Every item of the tree gives a `text` key (possibly null). */
  predicate AllHaveText(item: MenuItem)
    decreases item
  {
    item.text.Some? && forall k :: 0 <= k < |item.children| ==> AllHaveText(item.children[k])
  }

  /** The submenu tree mirrors the item tree: node by node, the kind, the
      given text, value and tag, the icon (given, else by tag in a protocol
      menu, else none) and the open flag (given, else open in a protocol
      menu not tagged `protocol_base`); the same number of children, child
      by child. */
  predicate Mirrors(sub: Menu, item: MenuItem, kind: MenuKind)
    decreases item
  {
    && sub.kind == kind && item.text == Some(sub.text) && sub.value == item.value && sub.tag == item.args.tag
    && (item.args.icon.Some? ==> sub.icon == item.args.icon.value)
    && (item.args.icon.None? ==> sub.icon == (if kind == ProtocolMenu then TagIcon(item.args.tag) else None))
    && (item.args.openItem.Some? ==> sub.openItem == item.args.openItem.value)
    && (item.args.openItem.None? ==>
          (sub.openItem <==> kind == ProtocolMenu && item.args.tag != Some("protocol_base")))
    && |sub.childs| == |item.children|
    && forall k :: 0 <= k < |item.children| ==> Mirrors(sub.childs[k], item.children[k], kind)
  }

  /** `add` succeeds exactly when every item of the tree gives a text, and then
      appends one submenu that mirrors the item, leaving the earlier children
      as they were. */
  lemma {:induction false} AddMirrors(menu: Menu, item: MenuItem)
    ensures Add(menu, item).Ok? <==> AllHaveText(item)
    ensures Add(menu, item).Ok? ==>
              var m := Add(menu, item).value;
              && m.kind == menu.kind && m.text == menu.text
              && |m.childs| == |menu.childs| + 1 && m.childs[..|menu.childs|] == menu.childs
              && Mirrors(m.childs[|menu.childs|], item, menu.kind)
    decreases item, 1
  {
    if item.text.Some? {
      var (_, sub) := AddSubMenu(menu, item.text.value, item.value, item.args);
      AddAllMirrors(sub, item.children);
      if AddAll(sub, item.children).Ok? {
        var filled := AddAll(sub, item.children).value;
        assert filled.childs[..0] == [];
        var m := menu.(childs := menu.childs + [filled]);
        assert m.childs[..|menu.childs|] == menu.childs;
      }
    }
  }

  /** Adding a list of items succeeds exactly when each item tree is
      complete, and appends one mirroring submenu per item, in order. */
  lemma {:induction false} AddAllMirrors(menu: Menu, items: seq<MenuItem>)
    ensures AddAll(menu, items).Ok? <==> forall k :: 0 <= k < |items| ==> AllHaveText(items[k])
    ensures AddAll(menu, items).Ok? ==>
              var m := AddAll(menu, items).value;
              && m.kind == menu.kind && m.text == menu.text && m.value == menu.value
              && m.tag == menu.tag && m.icon == menu.icon && m.openItem == menu.openItem
              && |m.childs| == |menu.childs| + |items| && m.childs[..|menu.childs|] == menu.childs
              && forall k :: 0 <= k < |items| ==> Mirrors(m.childs[|menu.childs| + k], items[k], menu.kind)
    decreases items, 0
  {
    if items != [] {
      AddMirrors(menu, items[0]);
      if Add(menu, items[0]).Ok? {
        var next := Add(menu, items[0]).value;
        AddAllMirrors(next, items[1..]);
        assert forall k :: 1 <= k < |items| ==> items[k] == items[1..][k - 1];
        if AddAll(next, items[1..]).Ok? {
          var m := AddAll(next, items[1..]).value;
          assert m.childs[..|menu.childs|] == next.childs[..|menu.childs|];
          forall k | 1 <= k < |items|
            ensures Mirrors(m.childs[|menu.childs| + k], items[k], menu.kind)
          {
            assert |menu.childs| + k == |next.childs| + (k - 1);
          }
          assert m.childs[|menu.childs|] == next.childs[|menu.childs|] by {
            assert m.childs[..|next.childs|] == next.childs;
          }
        }
      }
    }
  }

  /** One `[PROTOCOLS]` entry: a protocol menu named after the option, with
      its items added in order. */
  function ProtocolMenuOf(menuName: string, children: seq<MenuItem>): Result<Menu, MenuError>
  {
    AddAll(NewMenu(ProtocolMenu, Some(menuName), None, NoArgs), children)
  }

  /** A protocol menu built from the file is named after its entry, opens,
      and has one mirroring submenu per top-level item. */
  lemma ProtocolMenuOfMirrors(menuName: string, children: seq<MenuItem>)
    requires forall k :: 0 <= k < |children| ==> AllHaveText(children[k])
    ensures ProtocolMenuOf(menuName, children).Ok?
    ensures var m := ProtocolMenuOf(menuName, children).value;
            && m.kind == ProtocolMenu && m.text == Some(menuName) && m.openItem
            && |m.childs| == |children|
            && forall k :: 0 <= k < |children| ==> Mirrors(m.childs[k], children[k], ProtocolMenu)
  {
    AddAllMirrors(NewMenu(ProtocolMenu, Some(menuName), None, NoArgs), children);
  }
}
