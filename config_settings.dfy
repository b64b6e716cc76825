/** Project settings: the host list, the protocol menus with the one in
    use, the graph nodes, and how a stored settings object is loaded. */
module Settings {
  import opened Wrappers
  import opened Menus
  import opened NodeConfigs
  import Numerals

  // ---------------------------------------------------------------------
  // Loading

  datatype LoadError = NoSettings | TooManySettings(found: nat)

  /** `loadSettings`: of the `ProjectSettings` objects stored in the
      database, exactly one is expected; it is returned. */
  function LoadSettings<S>(settingList: seq<S>): (r: Result<S, LoadError>)
    ensures r.Ok? <==> |settingList| == 1
    ensures r.Ok? ==> r.value == settingList[0]
    ensures r == Err(NoSettings) <==> settingList == []
    ensures |settingList| > 1 ==> r == Err(TooManySettings(|settingList|))
  {
    var n := |settingList|;
    if n == 0 then Err(NoSettings)
    else if n > 1 then Err(TooManySettings(n))
    else Ok(settingList[0])
  }

  // ---------------------------------------------------------------------
  // Lists with a current index

  /** Indexing past either end of a list. */
  datatype IndexError = IndexOutOfRange(index: int)

  /** `s[i]` on a Python list: a negative index counts from the end. */
  function PyIndex<T>(s: seq<T>, i: int): (r: Result<T, IndexError>)
    ensures r.Ok? <==> -|s| <= i < |s|
    ensures r.Err? ==> r.error == IndexOutOfRange(i)
    ensures 0 <= i < |s| ==> r == Ok(s[i])
    ensures -|s| <= i < 0 ==> r == Ok(s[|s| + i])
  {
    if 0 <= i < |s| then Ok(s[i])
    else if -|s| <= i < 0 then Ok(s[|s| + i])
    else Err(IndexOutOfRange(i))
  }

  /** Each element can be reached by its position and by that position
      counted from the end. */
  lemma PyIndexFromEnd<T>(s: seq<T>, i: int)
    requires 0 <= i < |s|
    ensures PyIndex(s, i - |s|) == PyIndex(s, i)
    ensures PyIndex(s, -1) == Ok(s[|s| - 1])
  {
  }

  /** `SettingList`: a list that also remembers the last selected index. */
  class SettingList<T> {
    var items: seq<T>
    var currentIndex: int

    constructor ()
      ensures items == [] && currentIndex == 0
    {
      items := [];
      currentIndex := 0;
    }

    function GetIndex(): int
      reads this
    {
      currentIndex
    }

    method SetIndex(i: int)
      modifies this`currentIndex
      ensures currentIndex == i
    {
      currentIndex := i;
    }

    /** `getItem`: the item at the current index. */
    function GetItem(): (r: Result<T, IndexError>)
      reads this
      ensures r.Ok? <==> -|items| <= currentIndex < |items|
      ensures 0 <= currentIndex < |items| ==> r == Ok(items[currentIndex])
    {
      PyIndex(items, currentIndex)
    }

    method Append(x: T)
      modifies this`items
      ensures items == old(items) + [x]
    {
      items := items + [x];
    }
  }

  // ---------------------------------------------------------------------
  // Hosts

  /** A host configuration, as far as the settings look at it. */
  datatype HostConfig = HostConfig(hostLabel: string, hostName: string, hostPath: string)

  /** The first host with the label, if any. */
  function HostByLabel(hosts: seq<HostConfig>, hostLabel: string): (r: Option<HostConfig>)
    ensures r.None? <==> forall k :: 0 <= k < |hosts| ==> hosts[k].hostLabel != hostLabel
    ensures r.Some? ==> exists k :: 0 <= k < |hosts| && hosts[k] == r.value && r.value.hostLabel == hostLabel
                                    && forall j :: 0 <= j < k ==> hosts[j].hostLabel != hostLabel
  {
    if hosts == [] then None
    else if hosts[0].hostLabel == hostLabel then Some(hosts[0])
    else
      var r := HostByLabel(hosts[1..], hostLabel);
      assert forall k :: 1 <= k < |hosts| ==> hosts[k] == hosts[1..][k - 1];
      r
  }

  /** `list.remove(x)`: the list without the first occurrence of `x`. */
  function RemoveFirst<T(==)>(s: seq<T>, x: T): (r: seq<T>)
    requires x in s
    ensures |r| == |s| - 1
  {
    if s[0] == x then s[1..] else [s[0]] + RemoveFirst(s[1..], x)
  }

  /** Removing takes away one copy of `x` and nothing else. */
  lemma {:induction false} RemoveFirstMultiset<T>(s: seq<T>, x: T)
    requires x in s
    ensures multiset(RemoveFirst(s, x)) == multiset(s) - multiset{x}
  {
    assert s == [s[0]] + s[1..];
    if s[0] != x {
      RemoveFirstMultiset(s[1..], x);
    }
  }

  /** Where `x` first occurs in `s`. */
  function FirstIndex<T(==)>(s: seq<T>, x: T): (k: nat)
    requires x in s
    ensures k < |s| && s[k] == x && x !in s[..k]
  {
    if s[0] == x then 0
    else
      var k := FirstIndex(s[1..], x);
      assert s[..k + 1] == [s[0]] + s[1..][..k];
      k + 1
  }

  /** What is removed is the first occurrence: the elements before it and
      after it are kept, in order. */
  lemma {:induction false} RemoveFirstShape<T>(s: seq<T>, x: T)
    requires x in s
    ensures RemoveFirst(s, x) == s[..FirstIndex(s, x)] + s[FirstIndex(s, x) + 1..]
  {
    if s[0] != x {
      var t := s[1..];
      var k := FirstIndex(t, x);
      RemoveFirstShape(t, x);
      assert FirstIndex(s, x) == k + 1;
      calc {
        RemoveFirst(s, x);
        [s[0]] + RemoveFirst(t, x);
        [s[0]] + (t[..k] + t[k + 1..]);
        ([s[0]] + t[..k]) + t[k + 1..];
        { assert s[..k + 1] == [s[0]] + t[..k]; assert s[k + 2..] == t[k + 1..]; }
        s[..k + 1] + s[k + 2..];
      }
    }
  }

  /** Deleting a host just added to a list that did not hold it gives the
      list back. */
  lemma {:induction false} RemoveFirstAfterAppend<T>(s: seq<T>, x: T)
    requires x !in s
    ensures RemoveFirst(s + [x], x) == s
  {
    if s != [] {
      assert (s + [x])[1..] == s[1..] + [x];
      RemoveFirstAfterAppend(s[1..], x);
    }
  }

  datatype SettingsError = HostNotInList

  // ---------------------------------------------------------------------
  // The settings object

  /** `ProjectSettings`. The database mapper is not modelled: writing,
      committing and deleting from the database are left out. */
  class ProjectSettings {
    const hostList: SettingList<HostConfig>
    const protMenuList: SettingList<Menu>
    const nodeList: NodeConfigList
    var runsView: int
    var readOnly: bool

    constructor ()
      ensures fresh(hostList) && fresh(protMenuList) && fresh(nodeList)
      ensures hostList.items == [] && protMenuList.items == [] && protMenuList.currentIndex == 0
      ensures nodeList.nodes == [] && nodeList.Synced()
      ensures runsView == 1 && !readOnly
    {
      hostList := new SettingList();
      protMenuList := new SettingList();
      nodeList := new NodeConfigList();
      runsView := 1;
      readOnly := false;
    }

    method AddHost(hostConfig: HostConfig)
      modifies hostList`items
      ensures hostList.items == old(hostList.items) + [hostConfig]
    {
      hostList.Append(hostConfig);
    }

    /** `getHostByLabel`: the first host carrying the label, or `None`. */
    method GetHostByLabel(hostLabel: string) returns (r: Option<HostConfig>)
      ensures r == HostByLabel(hostList.items, hostLabel)
    {
      var hosts := hostList.items;
      var k := 0;
      while k < |hosts|
        invariant 0 <= k <= |hosts|
        invariant HostByLabel(hosts, hostLabel) == HostByLabel(hosts[k..], hostLabel)
      {
        if hosts[k].hostLabel == hostLabel {
          return Some(hosts[k]);
        }
        assert hosts[k..][1..] == hosts[k + 1..];
        k := k + 1;
      }
      return None;
    }

    /** `deleteHost`: refuse a host that is not in the list, otherwise remove
        its first occurrence. */
    method DeleteHost(host: HostConfig) returns (r: Result<(), SettingsError>)
      modifies hostList`items
      ensures host !in old(hostList.items) ==> r == Err(HostNotInList) && hostList.items == old(hostList.items)
      ensures host in old(hostList.items) ==> r == Ok(()) && hostList.items == RemoveFirst(old(hostList.items), host)
    {
      if host !in hostList.items {
        return Err(HostNotInList);
      }
      hostList.items := RemoveFirst(hostList.items, host);
      return Ok(());
    }

    /** `getCurrentProtocolMenu`: the menu at the current index. */
    function GetCurrentProtocolMenu(): (r: Result<Menu, IndexError>)
      reads protMenuList
      ensures r.Ok? <==> -|protMenuList.items| <= protMenuList.currentIndex < |protMenuList.items|
      ensures 0 <= protMenuList.currentIndex < |protMenuList.items| ==>
                r == Ok(protMenuList.items[protMenuList.currentIndex])
    {
      protMenuList.GetItem()
    }

    /** `setCurrentProtocolMenu`: select a menu by index and return it. */
    method SetCurrentProtocolMenu(index: int) returns (r: Result<Menu, IndexError>)
      modifies protMenuList`currentIndex
      ensures protMenuList.currentIndex == index
      ensures r.Ok? <==> -|protMenuList.items| <= index < |protMenuList.items|
      ensures 0 <= index < |protMenuList.items| ==> r == Ok(protMenuList.items[index])
      ensures r == GetCurrentProtocolMenu()
    {
      protMenuList.SetIndex(index);
      r := GetCurrentProtocolMenu();
    }

    method AddProtocolMenu(protMenuConfig: Menu)
      modifies protMenuList`items
      ensures protMenuList.items == old(protMenuList.items) + [protMenuConfig]
    {
      protMenuList.Append(protMenuConfig);
    }

    /** `addProtocols` once the `[PROTOCOLS]` section is read: one protocol
        menu per entry, in order. */
    method AddProtocols(sections: seq<(string, seq<MenuItem>)>) returns (r: Result<(), MenuError>)
      modifies protMenuList`items
      ensures r.Ok? <==> ProtocolMenusOf(sections).Ok?
      ensures r.Ok? ==> protMenuList.items == old(protMenuList.items) + ProtocolMenusOf(sections).value
    {
      var k := 0;
      while k < |sections|
        invariant 0 <= k <= |sections|
        invariant ProtocolMenusOf(sections[..k]).Ok?
        invariant protMenuList.items == old(protMenuList.items) + ProtocolMenusOf(sections[..k]).value
        invariant ProtocolMenusOf(sections).Ok? ==> ProtocolMenusOf(sections[..k]).Ok?
      {
        var (menuName, children) := sections[k];
        ProtocolMenusOfStep(sections, k);
        var menu := ProtocolMenuOf(menuName, children);
        if menu.Err? {
          ProtocolMenusOfFails(sections, k);
          return Err(menu.error);
        }
        AddProtocolMenu(menu.value);
        k := k + 1;
      }
      assert sections[..k] == sections;
      return Ok(());
    }

    method AddNode(nodeId: int, x: Option<int>, y: Option<int>, selected: bool, expanded: bool)
      returns (node: NodeConfig)
      modifies nodeList
      ensures fresh(node) && node.id == nodeId
      ensures node.GetPosition() == (x, y) && node.selected == selected && node.expanded == expanded
      ensures nodeList.nodes == old(nodeList.nodes) + [node]
      ensures nodeList.nodesDict == old(nodeList.nodesDict)[nodeId := node]
      ensures nodeList.GetNode(nodeId) == Some(node)
      ensures old(nodeList.Synced()) ==> nodeList.Synced()
    {
      node := nodeList.AddNode(nodeId, x, y, selected, expanded);
    }

    /** `getNodeById`: the node the dictionary holds for the id, if any. */
    function GetNodeById(nodeId: int): (r: Option<NodeConfig>)
      reads nodeList
      ensures r.Some? <==> nodeId in nodeList.nodesDict
      ensures r.Some? ==> r.value == nodeList.nodesDict[nodeId]
    {
      nodeList.GetNode(nodeId)
    }
  }

  /** The protocol menus of a whole `[PROTOCOLS]` section, in order. */
  function ProtocolMenusOf(sections: seq<(string, seq<MenuItem>)>): Result<seq<Menu>, MenuError>
  {
    if sections == [] then Ok([])
    else
      match ProtocolMenusOf(sections[..|sections| - 1])
      case Err(e) => Err(e)
      case Ok(menus) =>
        var (menuName, children) := sections[|sections| - 1];
        match ProtocolMenuOf(menuName, children)
        case Err(e) => Err(e)
        case Ok(menu) => Ok(menus + [menu])
  }

  lemma ProtocolMenusOfStep(sections: seq<(string, seq<MenuItem>)>, k: int)
    requires 0 <= k < |sections|
    requires ProtocolMenusOf(sections[..k]).Ok?
    ensures var (menuName, children) := sections[k];
            ProtocolMenuOf(menuName, children).Ok? ==>
              ProtocolMenusOf(sections[..k + 1]) ==
                Ok(ProtocolMenusOf(sections[..k]).value + [ProtocolMenuOf(menuName, children).value])
  {
    assert sections[..k + 1][..k] == sections[..k];
  }

  lemma {:induction false} ProtocolMenusOfFails(sections: seq<(string, seq<MenuItem>)>, k: int)
    requires 0 <= k < |sections|
    requires ProtocolMenuOf(sections[k].0, sections[k].1).Err?
    ensures ProtocolMenusOf(sections).Err?
    decreases |sections|
  {
    if k < |sections| - 1 {
      var init := sections[..|sections| - 1];
      assert init[k] == sections[k];
      ProtocolMenusOfFails(init, k);
    }
  }

  /** Loading the section succeeds exactly when every item in it has a text;
      then there is one open protocol menu per entry, named after it, whose
      submenus mirror the entry's items. */
  lemma {:induction false} ProtocolMenusOfMirrors(sections: seq<(string, seq<MenuItem>)>)
    ensures ProtocolMenusOf(sections).Ok? <==>
              forall s, k :: 0 <= s < |sections| && 0 <= k < |sections[s].1| ==> AllHaveText(sections[s].1[k])
    ensures ProtocolMenusOf(sections).Ok? ==>
              var menus := ProtocolMenusOf(sections).value;
              && |menus| == |sections|
              && forall s :: 0 <= s < |sections| ==>
                   && menus[s].kind == ProtocolMenu && menus[s].text == Some(sections[s].0) && menus[s].openItem
                   && |menus[s].childs| == |sections[s].1|
                   && forall k :: 0 <= k < |sections[s].1| ==> Mirrors(menus[s].childs[k], sections[s].1[k], ProtocolMenu)
  {
    if sections != [] {
      var init := sections[..|sections| - 1];
      var last := sections[|sections| - 1];
      ProtocolMenusOfMirrors(init);
      AddAllMirrors(NewMenu(ProtocolMenu, Some(last.0), None, NoArgs), last.1);
      assert forall s :: 0 <= s < |init| ==> init[s] == sections[s];
      if ProtocolMenuOf(last.0, last.1).Ok? {
        ProtocolMenuOfMirrors(last.0, last.1);
      }
    }
  }

  // ---------------------------------------------------------------------
  // Boolean settings

  /** A value read from a hosts file: the options are strings, the queue
      settings come from JSON and may be booleans, integers or `null` too. */
  datatype ConfigValue = StrValue(s: string) | BoolValue(b: bool) | IntValue(i: int) | NoneValue

  /** `str(v)`. */
  function PyStr(v: ConfigValue): string
  {
    match v
    case StrValue(s) => s
    case BoolValue(b) => if b then "True" else "False"
    case IntValue(i) => Numerals.IntToString(i)
    case NoneValue => "None"
  }

  function LowerChar(c: char): char
  {
    if 'A' <= c <= 'Z' then (c as int - 'A' as int + 'a' as int) as char else c
  }

  /** `str.lower()` on ASCII letters. */
  function Lower(s: string): (r: string)
    ensures |r| == |s| && forall k :: 0 <= k < |s| ==> r[k] == LowerChar(s[k])
  {
    seq(|s|, k requires 0 <= k < |s| => LowerChar(s[k]))
  }

  /** `isOn`: the printed value, lower-cased, is one of the words for yes. */
  predicate IsOn(v: ConfigValue)
  {
    Lower(PyStr(v)) in ["true", "yes", "1"]
  }

  /** A number is on exactly when it is 1: its printed form has no letters,
      so lower-casing leaves it alone, and only `1` prints as `"1"`. */
  lemma IntIsOn(i: int)
    ensures IsOn(IntValue(i)) <==> i == 1
  {
    var s := Numerals.IntToString(i);
    Numerals.IntToStringOne(i);
    Numerals.IntToStringChars(i);
    assert Lower(s) == s by {
      forall k | 0 <= k < |s| ensures LowerChar(s[k]) == s[k] {
      }
    }
    assert s != "true" && s != "yes" by {
      assert s[0] != 't' && s[0] != 'y';
    }
  }

  /** A boolean is on exactly when it is true, a number exactly when it is
      1, `null` never; a string is on in any mix of cases of `true` and `yes`, and not for
      other words. */
  lemma IsOnValues(b: bool, i: int)
    ensures IsOn(BoolValue(b)) <==> b
    ensures IsOn(IntValue(i)) <==> i == 1
    ensures IsOn(StrValue("TRUE")) && IsOn(StrValue("Yes")) && IsOn(StrValue("1"))
    ensures !IsOn(StrValue("on")) && !IsOn(StrValue("0")) && !IsOn(StrValue("no")) && !IsOn(StrValue(" true"))
    ensures !IsOn(NoneValue)
  {
    IntIsOn(i);
    assert Lower("None") == "none";
    assert Lower("True") == "true";
    assert Lower("False") == "false";
    assert Lower("TRUE") == "true" && Lower("Yes") == "yes" && Lower("1") == "1";
    assert Lower("on") == "on" && Lower("0") == "0" && Lower("no") == "no";
  }

  /** Two strings equal but for the case of their letters are on or off
      together. */
  lemma IsOnIgnoresCase(s: string, t: string)
    requires |s| == |t| && forall k :: 0 <= k < |s| ==> LowerChar(s[k]) == LowerChar(t[k])
    ensures IsOn(StrValue(s)) <==> IsOn(StrValue(t))
  {
    assert Lower(s) == Lower(t);
  }
}
