/** The three ways in which the index of an active plugin is computed. */
module LoadOrderIndex {
  import opened Options
  import opened Sequences
  import opened Numerals
  import opened LoadOrderText

  datatype Plugin = Plugin(isLight: bool, isMedium: bool)

  /** Indices count up separately for each of these. */
  datatype Kind = Light | Medium | Full

  function KindOf(p: Plugin): Kind {
    if p.isLight then Light else if p.isMedium then Medium else Full
  }

  /**
   * What the game knows about plugin names. `key` says which names are the same filename; a
   * name that is not loaded has no plugin.
   */
  datatype Game = Game(plugins: map<string, Plugin>, active: set<string>, key: string -> string) {
    function GetPlugin(name: string): Option<Plugin> {
      if key(name) in plugins then Some(plugins[key(name)]) else None
    }

    predicate IsPluginActive(name: string) {
      key(name) in active
    }

    /** The name is that of a loaded and active plugin. */
    predicate Counts(name: string) {
      key(name) in plugins && key(name) in active
    }
  }

  /** How many of the names are those of active plugins of the kind. */
  function ActiveOfKind(game: Game, names: seq<string>, kind: Kind): (n: nat)
    ensures n <= |names|
  {
    if names == [] then 0
    else
      var last := names[|names| - 1];
      ActiveOfKind(game, names[..|names| - 1], kind) +
      (if game.Counts(last) && KindOf(game.plugins[game.key(last)]) == kind then 1 else 0)
  }

  datatype Entry = Entry(name: string, index: Option<nat>, isActive: bool)

  /** What the i-th name of a load order shows: how many active plugins of its kind come before it. */
  function EntryAt(game: Game, loadOrder: seq<string>, i: nat): Entry
    requires i < |loadOrder| && game.key(loadOrder[i]) in game.plugins
  {
    var name := loadOrder[i];
    var kind := KindOf(game.plugins[game.key(name)]);
    Entry(name, if game.IsPluginActive(name) then Some(ActiveOfKind(game, loadOrder[..i], kind)) else None,
          game.IsPluginActive(name))
  }

  /** The entries of all loaded plugins, in load order. */
  function Entries(game: Game, loadOrder: seq<string>, n: nat): (r: seq<Entry>)
    requires n <= |loadOrder|
    ensures forall i :: 0 <= i < |r| ==> game.key(r[i].name) in game.plugins
  {
    if n == 0 then []
    else
      Entries(game, loadOrder, n - 1) +
      (if game.key(loadOrder[n - 1]) in game.plugins then [EntryAt(game, loadOrder, n - 1)] else [])
  }

  lemma CountOfNext(game: Game, loadOrder: seq<string>, i: nat, kind: Kind)
    requires i < |loadOrder|
    ensures ActiveOfKind(game, loadOrder[..i + 1], kind) == ActiveOfKind(game, loadOrder[..i], kind) +
      (if game.Counts(loadOrder[i]) && KindOf(game.plugins[game.key(loadOrder[i])]) == kind then 1 else 0)
  {
    assert loadOrder[..i + 1][..i] == loadOrder[..i];
  }

  // --- What the entries are to say ------------------------------------------------------

  /** The positions of the loaded plugins, in load order. */
  function LoadedPositions(game: Game, loadOrder: seq<string>, n: nat): (r: seq<nat>)
    requires n <= |loadOrder|
    ensures forall i :: i in r ==> i < n && game.key(loadOrder[i]) in game.plugins
    ensures forall i: nat :: i < n && game.key(loadOrder[i]) in game.plugins ==> i in r
    ensures forall j, k :: 0 <= j < k < |r| ==> r[j] < r[k]
  {
    if n == 0 then []
    else
      var front := LoadedPositions(game, loadOrder, n - 1);
      if game.key(loadOrder[n - 1]) !in game.plugins then front
      else
        assert forall j :: 0 <= j < |front| ==> front[j] in front;
        assert forall i: nat :: i in front + [n - 1] <==> i in front || i == n - 1;
        front + [n - 1]
  }

  /** Plugins that share a counter: light ones, medium ones that are not light, and the others. */
  predicate SameClass(p: Plugin, q: Plugin) {
    (p.isLight && q.isLight) || (!p.isLight && !q.isLight && p.isMedium == q.isMedium)
  }

  /** The name is that of a loaded and active plugin of the class. */
  predicate IsOfClass(game: Game, name: string, p: Plugin) {
    game.key(name) in game.plugins && game.key(name) in game.active && SameClass(game.plugins[game.key(name)], p)
  }

  /** The name is that of a loaded and active plugin with the same flags. */
  predicate HasFlagsOf(game: Game, name: string, p: Plugin) {
    game.key(name) in game.plugins && game.key(name) in game.active &&
    game.plugins[game.key(name)].isLight == p.isLight && game.plugins[game.key(name)].isMedium == p.isMedium
  }

  /** The positions before i that hold active plugins of the same class. */
  ghost function ClassBefore(game: Game, loadOrder: seq<string>, i: int, p: Plugin): set<int>
    requires i <= |loadOrder|
  {
    set q | 0 <= q < i && IsOfClass(game, loadOrder[q], p)
  }

  /** The positions before i that hold active plugins with exactly the same flags. */
  ghost function FlagsBefore(game: Game, loadOrder: seq<string>, i: int, p: Plugin): set<int>
    requires i <= |loadOrder|
  {
    set q | 0 <= q < i && HasFlagsOf(game, loadOrder[q], p)
  }

  /** The entry of a loaded plugin: its name, whether it is active and, if so, how many of its class come before. */
  ghost predicate IsEntry(game: Game, loadOrder: seq<string>, i: nat, e: Entry)
    requires i < |loadOrder| && game.key(loadOrder[i]) in game.plugins
  {
    e.name == loadOrder[i] && (e.isActive <==> game.key(loadOrder[i]) in game.active) &&
    (!e.isActive ==> e.index == None) &&
    (e.isActive ==> e.index == Some(|ClassBefore(game, loadOrder, i, game.plugins[game.key(loadOrder[i])])|))
  }

  /** Counting by kind counts the positions of the class. */
  lemma {:induction false} CountIsOfClass(game: Game, loadOrder: seq<string>, n: nat, p: Plugin)
    requires n <= |loadOrder|
    ensures ActiveOfKind(game, loadOrder[..n], KindOf(p)) == |ClassBefore(game, loadOrder, n, p)|
    decreases n
  {
    if n > 0 {
      hide ActiveOfKind, ClassBefore;
      CountIsOfClass(game, loadOrder, n - 1, p);
      CountOfNext(game, loadOrder, n - 1, KindOf(p));
      ClassOfNext(game, loadOrder, n - 1, p);
    }
  }

  lemma ClassOfNext(game: Game, loadOrder: seq<string>, i: nat, p: Plugin)
    requires i < |loadOrder|
    ensures |ClassBefore(game, loadOrder, i + 1, p)| == |ClassBefore(game, loadOrder, i, p)| +
      (if IsOfClass(game, loadOrder[i], p) then 1 else 0)
  {
    hide IsOfClass;
    var before, now := ClassBefore(game, loadOrder, i, p), ClassBefore(game, loadOrder, i + 1, p);
    assert now == if i in now then before + {i} else before;
  }

  /** The entries are those of the loaded plugins, and say what they are to say. */
  lemma {:induction false} EntriesAreRight(game: Game, loadOrder: seq<string>, n: nat)
    requires n <= |loadOrder|
    ensures |Entries(game, loadOrder, n)| == |LoadedPositions(game, loadOrder, n)|
    ensures forall j :: 0 <= j < |Entries(game, loadOrder, n)| ==>
      LoadedPositions(game, loadOrder, n)[j] in LoadedPositions(game, loadOrder, n) &&
      IsEntry(game, loadOrder, LoadedPositions(game, loadOrder, n)[j], Entries(game, loadOrder, n)[j])
    decreases n
  {
    hide IsEntry;
    if n > 0 {
      EntriesAreRight(game, loadOrder, n - 1);
      if game.key(loadOrder[n - 1]) in game.plugins {
        EntryIsRight(game, loadOrder, n - 1);
      }
    }
  }

  lemma EntryIsRight(game: Game, loadOrder: seq<string>, i: nat)
    requires i < |loadOrder| && game.key(loadOrder[i]) in game.plugins
    ensures IsEntry(game, loadOrder, i, EntryAt(game, loadOrder, i))
  {
    CountIsOfClass(game, loadOrder, i, game.plugins[game.key(loadOrder[i])]);
  }

  /** One pass with three counters. */
  method MapToLoadOrderTuples(game: Game, loadOrder: seq<string>) returns (data: seq<Entry>)
    ensures data == Entries(game, loadOrder, |loadOrder|)
    ensures |data| == |LoadedPositions(game, loadOrder, |loadOrder|)|
    ensures forall j :: 0 <= j < |data| ==>
      LoadedPositions(game, loadOrder, |loadOrder|)[j] in LoadedPositions(game, loadOrder, |loadOrder|) &&
      IsEntry(game, loadOrder, LoadedPositions(game, loadOrder, |loadOrder|)[j], data[j])
  {
    EntriesAreRight(game, loadOrder, |loadOrder|);
    hide IsEntry, LoadedPositions;
    data := [];
    var light, medium, full := 0, 0, 0;
    for i := 0 to |loadOrder|
      invariant data == Entries(game, loadOrder, i)
      invariant light == ActiveOfKind(game, loadOrder[..i], Light)
      invariant medium == ActiveOfKind(game, loadOrder[..i], Medium)
      invariant full == ActiveOfKind(game, loadOrder[..i], Full)
    {
      CountOfNext(game, loadOrder, i, Light);
      CountOfNext(game, loadOrder, i, Medium);
      CountOfNext(game, loadOrder, i, Full);
      var plugin := game.GetPlugin(loadOrder[i]);
      if plugin.Some? {
        var isActive := game.IsPluginActive(loadOrder[i]);
        var numberOfActivePlugins :=
          if plugin.value.isLight then light else if plugin.value.isMedium then medium else full;
        data := data + [Entry(loadOrder[i], if isActive then Some(numberOfActivePlugins) else None, isActive)];
        if isActive {
          if plugin.value.isLight {
            light := light + 1;
          } else if plugin.value.isMedium {
            medium := medium + 1;
          } else {
            full := full + 1;
          }
        }
      }
    }
  }

  /** The row of the text table that shows an entry. */
  function RowOf(game: Game, e: Entry): TableRow
    requires game.key(e.name) in game.plugins
  {
    if e.index == None then BlankRow(e.name)
    else match KindOf(game.plugins[game.key(e.name)])
      case Light => LightRow(e.index.value, e.name)
      case Medium => MediumRow(e.index.value, e.name)
      case Full => FullRow(e.index.value, e.name)
  }

  /** The text table of some entries. */
  function TableOf(game: Game, entries: seq<Entry>): string
    requires forall i :: 0 <= i < |entries| ==> game.key(entries[i].name) in game.plugins
  {
    Concat(seq(|entries|, i requires 0 <= i < |entries| => LineOf(RowOf(game, entries[i]))))
  }

  lemma TableOfNext(game: Game, entries: seq<Entry>, e: Entry)
    requires game.key(e.name) in game.plugins
    requires forall i :: 0 <= i < |entries| ==> game.key(entries[i].name) in game.plugins
    ensures TableOf(game, entries + [e]) == TableOf(game, entries) + LineOf(RowOf(game, e))
  {
    hide LineOf, RowOf;
    var n, more := |entries|, entries + [e];
    var lines := seq(n + 1, i requires 0 <= i < n + 1 => LineOf(RowOf(game, more[i])));
    assert lines[..n] == seq(n, i requires 0 <= i < n => LineOf(RowOf(game, entries[i])));
  }

  lemma TableOfNextPlugin(game: Game, loadOrder: seq<string>, i: nat)
    requires i < |loadOrder|
    ensures TableOf(game, Entries(game, loadOrder, i + 1)) == TableOf(game, Entries(game, loadOrder, i)) +
      (if game.key(loadOrder[i]) in game.plugins then LineOf(RowOf(game, EntryAt(game, loadOrder, i))) else "")
  {
    hide TableOf, LineOf;
    if game.key(loadOrder[i]) in game.plugins {
      TableOfNext(game, Entries(game, loadOrder, i), EntryAt(game, loadOrder, i));
    } else {
      assert Entries(game, loadOrder, i + 1) == Entries(game, loadOrder, i);
    }
  }

  /** The line of the loaded plugin at i: told by its flags, with the number of its class before it. */
  ghost predicate IsLine(game: Game, loadOrder: seq<string>, i: nat, line: string)
    requires i < |loadOrder| && game.key(loadOrder[i]) in game.plugins
  {
    var name, p := loadOrder[i], game.plugins[game.key(loadOrder[i])];
    var index := |ClassBefore(game, loadOrder, i, p)|;
    if game.key(name) !in game.active then
      line == "           " + name + "\r\n" && ReadLine(line) == BlankRow(name)
    else if p.isLight then
      line == "254 FE " + (Padded(Digits(index, Hexadecimal), 3) + " " + name) + "\r\n" &&
      ReadLine(line) == LightRow(index, name)
    else if p.isMedium then
      line == "253 FD " + (Padded(Digits(index, Hexadecimal), 2) + " " + name) + "\r\n" &&
      ReadLine(line) == MediumRow(index, name)
    else
      line == Padded(Digits(index, Decimal), 3) + " " +
              (Padded(Digits(index, Hexadecimal), 2) + " " + ("    " + name)) + "\r\n" &&
      ReadLine(line) == FullRow(index, name)
  }

  /** The text is one such line for each loaded plugin, in load order. */
  ghost predicate IsTable(game: Game, loadOrder: seq<string>, text: string) {
    var positions := LoadedPositions(game, loadOrder, |loadOrder|);
    exists lines: seq<string> ::
      text == Concat(lines) && |lines| == |positions| &&
      forall j :: 0 <= j < |lines| ==> positions[j] in positions && IsLine(game, loadOrder, positions[j], lines[j])
  }

  lemma LineIsRight(game: Game, loadOrder: seq<string>, i: nat, e: Entry)
    requires i < |loadOrder| && game.key(loadOrder[i]) in game.plugins && IsEntry(game, loadOrder, i, e)
    ensures IsLine(game, loadOrder, i, LineOf(RowOf(game, e)))
  {
    LineReadsBack(RowOf(game, e));
    hide ReadLine, Padded, Digits, ClassBefore;
  }

  lemma TableIsRight(game: Game, loadOrder: seq<string>)
    ensures IsTable(game, loadOrder, TableOf(game, Entries(game, loadOrder, |loadOrder|)))
  {
    hide IsLine, IsEntry, LineOf, Concat, LoadedPositions, Entries;
    var entries, positions := Entries(game, loadOrder, |loadOrder|), LoadedPositions(game, loadOrder, |loadOrder|);
    EntriesAreRight(game, loadOrder, |loadOrder|);
    var lines := seq(|entries|, i requires 0 <= i < |entries| => LineOf(RowOf(game, entries[i])));
    forall j | 0 <= j < |lines| ensures positions[j] in positions && IsLine(game, loadOrder, positions[j], lines[j]) {
      LineIsRight(game, loadOrder, positions[j], entries[j]);
    }
  }

  /** Three counters again, with the index written into the table. */
  method GetLoadOrderAsTextTable(game: Game, loadOrder: seq<string>) returns (text: string)
    ensures IsTable(game, loadOrder, text)
    ensures text == TableOf(game, Entries(game, loadOrder, |loadOrder|))
  {
    hide LineOf, TableOf, Entries, IsTable;
    text := "";
    NoTable(game, loadOrder);
    var light, medium, full := 0, 0, 0;
    for i := 0 to |loadOrder|
      invariant text == TableOf(game, Entries(game, loadOrder, i))
      invariant light == ActiveOfKind(game, loadOrder[..i], Light)
      invariant medium == ActiveOfKind(game, loadOrder[..i], Medium)
      invariant full == ActiveOfKind(game, loadOrder[..i], Full)
    {
      CountOfNext(game, loadOrder, i, Light);
      CountOfNext(game, loadOrder, i, Medium);
      CountOfNext(game, loadOrder, i, Full);
      TableOfNextPlugin(game, loadOrder, i);
      var name := loadOrder[i];
      var plugin := game.GetPlugin(name);
      if plugin.Some? {
        var isActive := game.IsPluginActive(name);
        var row := BlankRow(name);
        if isActive && plugin.value.isLight {
          row, light := LightRow(light, name), light + 1;
        } else if isActive && plugin.value.isMedium {
          row, medium := MediumRow(medium, name), medium + 1;
        } else if isActive {
          row, full := FullRow(full, name), full + 1;
        }
        text := text + LineOf(row);
      }
    }
    TableIsRight(game, loadOrder);
  }

  lemma NoTable(game: Game, loadOrder: seq<string>)
    ensures TableOf(game, Entries(game, loadOrder, 0)) == ""
  {
  }

  // --- The scan for one plugin ----------------------------------------------------------

  /** How many of the names are those of active plugins with exactly the same flags. */
  function ActiveLike(game: Game, names: seq<string>, p: Plugin): (n: nat) {
    if names == [] then 0
    else
      var last := names[|names| - 1];
      ActiveLike(game, names[..|names| - 1], p) +
      (if game.Counts(last) && game.plugins[game.key(last)] == p then 1 else 0)
  }

  /** Where the name first occurs, or the number of names. */
  function FirstAt(game: Game, names: seq<string>, name: string): (i: nat)
    ensures i <= |names|
    ensures i < |names| ==> game.key(names[i]) == game.key(name)
    ensures forall j :: 0 <= j < i ==> game.key(names[j]) != game.key(name)
  {
    if names == [] || game.key(names[0]) == game.key(name) then 0 else 1 + FirstAt(game, names[1..], name)
  }

  /** What the scan finds: nothing for a plugin that is inactive or not in the load order. */
  function ScanIndex(game: Game, name: string, loadOrder: seq<string>): Option<nat>
    requires game.key(name) in game.plugins
  {
    var first := FirstAt(game, loadOrder, name);
    if game.IsPluginActive(name) && first < |loadOrder|
    then Some(ActiveLike(game, loadOrder[..first], game.plugins[game.key(name)]))
    else None
  }

  predicate Occurs(game: Game, loadOrder: seq<string>, name: string) {
    exists j :: 0 <= j < |loadOrder| && game.key(loadOrder[j]) == game.key(name)
  }

  predicate OccursFirstAt(game: Game, loadOrder: seq<string>, name: string, j: int) {
    0 <= j < |loadOrder| && game.key(loadOrder[j]) == game.key(name) &&
    forall i :: 0 <= i < j ==> game.key(loadOrder[i]) != game.key(name)
  }

  /** Counting by equal flags counts the positions with those flags. */
  lemma {:induction false} CountIsOfFlags(game: Game, loadOrder: seq<string>, n: nat, p: Plugin)
    requires n <= |loadOrder|
    ensures ActiveLike(game, loadOrder[..n], p) == |FlagsBefore(game, loadOrder, n, p)|
    decreases n
  {
    if n > 0 {
      hide FlagsBefore;
      CountIsOfFlags(game, loadOrder, n - 1, p);
      assert loadOrder[..n][..n - 1] == loadOrder[..n - 1];
      FlagsOfNext(game, loadOrder, n - 1, p);
    }
  }

  lemma FlagsOfNext(game: Game, loadOrder: seq<string>, i: nat, p: Plugin)
    requires i < |loadOrder|
    ensures |FlagsBefore(game, loadOrder, i + 1, p)| == |FlagsBefore(game, loadOrder, i, p)| +
      (if HasFlagsOf(game, loadOrder[i], p) then 1 else 0)
  {
    hide HasFlagsOf;
    var before, now := FlagsBefore(game, loadOrder, i, p), FlagsBefore(game, loadOrder, i + 1, p);
    assert now == if i in now then before + {i} else before;
  }

  lemma ScanIsRight(game: Game, name: string, loadOrder: seq<string>)
    requires game.key(name) in game.plugins
    ensures var index := ScanIndex(game, name, loadOrder);
            (index.Some? <==> game.key(name) in game.active && Occurs(game, loadOrder, name)) &&
            forall j :: index.Some? && OccursFirstAt(game, loadOrder, name, j) ==>
              index.value == |FlagsBefore(game, loadOrder, j, game.plugins[game.key(name)])|
  {
    CountIsOfFlags(game, loadOrder, FirstAt(game, loadOrder, name), game.plugins[game.key(name)]);
    hide FlagsBefore;
  }

  /** Counts active plugins with the same flags until the plugin is found. */
  method GetActiveLoadOrderIndex(game: Game, name: string, loadOrder: seq<string>) returns (index: Option<nat>)
    requires game.key(name) in game.plugins
    ensures index == ScanIndex(game, name, loadOrder)
    ensures index.Some? <==> game.key(name) in game.active && Occurs(game, loadOrder, name)
    ensures forall j :: index.Some? && OccursFirstAt(game, loadOrder, name, j) ==>
      index.value == |FlagsBefore(game, loadOrder, j, game.plugins[game.key(name)])|
  {
    ScanIsRight(game, name, loadOrder);
    hide FlagsBefore;
    if !game.IsPluginActive(name) {
      return None;
    }
    var plugin := game.plugins[game.key(name)];
    var numberOfActivePlugins := 0;
    for i := 0 to |loadOrder|
      invariant forall j :: 0 <= j < i ==> game.key(loadOrder[j]) != game.key(name)
      invariant numberOfActivePlugins == ActiveLike(game, loadOrder[..i], plugin)
    {
      if game.key(loadOrder[i]) == game.key(name) {
        assert FirstAt(game, loadOrder, name) == i;
        return Some(numberOfActivePlugins);
      }
      assert loadOrder[..i + 1][..i] == loadOrder[..i];
      var otherPlugin := game.GetPlugin(loadOrder[i]);
      if otherPlugin.Some? && plugin.isLight == otherPlugin.value.isLight &&
         plugin.isMedium == otherPlugin.value.isMedium && game.IsPluginActive(loadOrder[i]) {
        numberOfActivePlugins := numberOfActivePlugins + 1;
      }
    }
    return None;
  }

  // --- Agreement ------------------------------------------------------------------------

  /** An active plugin that is counted along with p by the one pass but not by the scan. */
  predicate IsStranger(game: Game, name: string, p: Plugin) {
    game.Counts(name) && KindOf(game.plugins[game.key(name)]) == KindOf(p) && game.plugins[game.key(name)] != p
  }

  predicate HasStranger(game: Game, names: seq<string>, p: Plugin) {
    exists n :: n in names && IsStranger(game, n, p)
  }

  lemma {:induction false} CountsAgreeWithoutStranger(game: Game, names: seq<string>, p: Plugin)
    ensures ActiveLike(game, names, p) <= ActiveOfKind(game, names, KindOf(p))
    ensures ActiveLike(game, names, p) == ActiveOfKind(game, names, KindOf(p)) <==> !HasStranger(game, names, p)
    decreases |names|
  {
    if names != [] {
      var front, last := names[..|names| - 1], names[|names| - 1];
      CountsAgreeWithoutStranger(game, front, p);
      assert names == front + [last];
      assert HasStranger(game, names, p) <==> HasStranger(game, front, p) || IsStranger(game, last, p);
    }
  }

  /** A plugin is both light and medium. */
  predicate IsMixed(p: Plugin) {
    p.isLight && p.isMedium
  }

  /** Two plugins are light, and one of them is medium too. */
  predicate IsMix(p: Plugin, q: Plugin) {
    p.isLight && q.isLight && p.isMedium != q.isMedium
  }

  /**
   * The scan and the one pass give the same index to the plugin at i if and only if it has not
   * occurred before, and no active plugin before it is light like itself but differs in being medium.
   */
  lemma ScanAgreesExactlyWithoutMix(game: Game, loadOrder: seq<string>, i: nat)
    requires i < |loadOrder| && game.Counts(loadOrder[i])
    ensures EntryAt(game, loadOrder, i).index == ScanIndex(game, loadOrder[i], loadOrder) <==>
      FirstAt(game, loadOrder, loadOrder[i]) == i &&
      (forall n :: n in loadOrder[..i] && game.Counts(n) ==>
        !IsMix(game.plugins[game.key(loadOrder[i])], game.plugins[game.key(n)]))
  {
    var p, first := game.plugins[game.key(loadOrder[i])], FirstAt(game, loadOrder, loadOrder[i]);
    CountsAgreeWithoutStranger(game, loadOrder[..first], p);
    if first < i {
      CountOfNext(game, loadOrder, first, KindOf(p));
      CountsGrow(game, loadOrder, first + 1, i, KindOf(p));
    }
  }

  // An example: "a" is light, and "b" is light and medium.

  function MixedGame(): Game {
    Game(map["a" := Plugin(true, false), "b" := Plugin(true, true)], {"a", "b"}, name => name)
  }

  /** The scan can find another index than the one pass, if a plugin can be both light and medium. */
  lemma MixedPluginsDisagree()
    ensures EntryAt(MixedGame(), ["a", "b"], 1).index == Some(1)
    ensures ScanIndex(MixedGame(), "b", ["a", "b"]) == Some(0)
  {
    assert ["a", "b"][..1] == ["a"] && ["a"][..0] == [] && ["a", "b"][1..] == ["b"];
    assert ActiveOfKind(MixedGame(), ["a"], Light) == ActiveOfKind(MixedGame(), [], Light) + 1;
    assert ActiveLike(MixedGame(), ["a"], Plugin(true, true)) == ActiveLike(MixedGame(), [], Plugin(true, true));
    assert FirstAt(MixedGame(), ["a", "b"], "b") == 1 + FirstAt(MixedGame(), ["b"], "b");
  }

  /** If no active plugin is both light and medium, and no name occurs twice, the scan agrees throughout. */
  lemma ScanAgrees(game: Game, loadOrder: seq<string>, i: nat)
    requires i < |loadOrder| && game.Counts(loadOrder[i])
    requires Distinct(seq(|loadOrder|, j requires 0 <= j < |loadOrder| => game.key(loadOrder[j])))
    requires forall n :: n in game.plugins && n in game.active ==> !IsMixed(game.plugins[n])
    ensures EntryAt(game, loadOrder, i).index == ScanIndex(game, loadOrder[i], loadOrder)
  {
    var keys := seq(|loadOrder|, j requires 0 <= j < |loadOrder| => game.key(loadOrder[j]));
    assert forall j :: 0 <= j < |loadOrder| ==> keys[j] == game.key(loadOrder[j]);
    assert FirstAt(game, loadOrder, loadOrder[i]) == i;
    ScanAgreesExactlyWithoutMix(game, loadOrder, i);
  }

  /** The indices of each kind leave no gap: with those of later plugins being larger, they are 0, 1, 2 and so on. */
  lemma {:induction false} EveryIndexIsTaken(game: Game, loadOrder: seq<string>, n: nat, kind: Kind, k: nat)
    returns (i: nat)
    requires n <= |loadOrder| && k < ActiveOfKind(game, loadOrder[..n], kind)
    ensures i < n && game.Counts(loadOrder[i]) && KindOf(game.plugins[game.key(loadOrder[i])]) == kind
    ensures EntryAt(game, loadOrder, i).index == Some(k)
    decreases n
  {
    if n > 0 {
      CountOfNext(game, loadOrder, n - 1, kind);
      if k < ActiveOfKind(game, loadOrder[..n - 1], kind) {
        i := EveryIndexIsTaken(game, loadOrder, n - 1, kind, k);
      } else {
        i := n - 1;
      }
    }
  }

  lemma {:induction false} CountsGrow(game: Game, loadOrder: seq<string>, i: nat, j: nat, kind: Kind)
    requires i <= j <= |loadOrder|
    ensures ActiveOfKind(game, loadOrder[..i], kind) <= ActiveOfKind(game, loadOrder[..j], kind)
    decreases j
  {
    if i < j {
      CountOfNext(game, loadOrder, j - 1, kind);
      CountsGrow(game, loadOrder, i, j - 1, kind);
    }
  }

  lemma IndicesIncrease(game: Game, loadOrder: seq<string>, i: nat, j: nat)
    requires i < j < |loadOrder| && game.Counts(loadOrder[i]) && game.Counts(loadOrder[j])
    requires KindOf(game.plugins[game.key(loadOrder[i])]) == KindOf(game.plugins[game.key(loadOrder[j])])
    ensures EntryAt(game, loadOrder, i).index.value < EntryAt(game, loadOrder, j).index.value
  {
    var kind := KindOf(game.plugins[game.key(loadOrder[i])]);
    CountOfNext(game, loadOrder, i, kind);
    CountsGrow(game, loadOrder, i + 1, j, kind);
  }
}
