// The directory scan (crates/clawreform-api/src/auto_import.rs:219-428) over a finite tree whose reads succeed.

module AutoImport {
  import opened Text

  type Path = seq<string>

  datatype Node = File(name: string, content: string) | Dir(name: string, children: seq<Node>)

  datatype Kind = McpServer | Skill | Plugin

  datatype Item = Item(kind: Kind, name: string, path: Path, alreadyInstalled: bool, canImport: bool)

  /** Whether the contents of a manifest parse; a plugin's must also carry the keyword `mcp`. */
  datatype Parsers = Parsers(mcp: string -> bool, skillToml: string -> bool, plugin: string -> bool)

  /** What the scan is given besides the tree. */
  datatype Config = Config(parsers: Parsers, installedSkills: seq<string>, configuredMcp: seq<string>)

  // ----- one directory -----

  predicate Has(children: seq<Node>, name: string) {
    exists i :: 0 <= i < |children| && children[i].name == name
  }

  /** `read_to_string`: a directory cannot be read. */
  function Read(children: seq<Node>, name: string): Option<string> {
    if children == [] then None
    else if children[0].name == name then (if children[0].File? then Some(children[0].content) else None)
    else Read(children[1..], name)
  }

  /** The first marker that exists decides, in this order. */
  function MarkOf(children: seq<Node>): Option<Kind> {
    if Has(children, "mcp_config.json") then Some(McpServer)
    else if Has(children, "skill.toml") || Has(children, "SKILL.md") then Some(Skill)
    else if Has(children, "package.json") then Some(Plugin)
    else None
  }

  predicate Parses(children: seq<Node>, kind: Kind, cfg: Config) {
    match kind
    case McpServer => var m := Read(children, "mcp_config.json"); m.Some? && cfg.parsers.mcp(m.value)
    case Skill =>
      if Has(children, "skill.toml") then
        var m := Read(children, "skill.toml"); m.Some? && cfg.parsers.skillToml(m.value)
      else Read(children, "SKILL.md").Some?
    case Plugin => var m := Read(children, "package.json"); m.Some? && cfg.parsers.plugin(m.value)
  }

  function ItemFor(kind: Kind, name: string, path: Path, cfg: Config): Item {
    var installed := match kind
                     case McpServer => name in cfg.configuredMcp
                     case Skill => name in cfg.installedSkills
                     case Plugin => false;
    Item(kind, name, path, installed, !installed)
  }

  // ----- the scan -----

  /** The items below `base`, in directory order. */
  function Scan(base: Path, children: seq<Node>, cfg: Config): seq<Item>
    decreases children
  {
    if children == [] then [] else Here(base, children[0], cfg) + Scan(base, children[1..], cfg)
  }

  /** What one entry contributes: a marked directory is reported or not, and is not entered. */
  function Here(base: Path, c: Node, cfg: Config): seq<Item>
    decreases c
  {
    match c
    case File(_, _) => []
    case Dir(name, below) =>
      match MarkOf(below)
      case None => Scan(base + [name], below, cfg)
      case Some(kind) => if Parses(below, kind, cfg) then [ItemFor(kind, name, base + [name], cfg)] else []
  }

  function OfKind(items: seq<Item>, kind: Kind): seq<Item> {
    if items == [] then [] else (if items[0].kind == kind then [items[0]] else []) + OfKind(items[1..], kind)
  }

  lemma {:induction false} OfKindAppend(a: seq<Item>, b: seq<Item>, kind: Kind)
    ensures OfKind(a + b, kind) == OfKind(a, kind) + OfKind(b, kind)
  {
    if a == [] {
      assert a + b == b;
    } else {
      assert (a + b)[1..] == a[1..] + b;
      OfKindAppend(a[1..], b, kind);
    }
  }

  class ScanResult {
    var totalItems: nat
    var mcpServers: seq<Item>
    var skills: seq<Item>
    var plugins: seq<Item>

    constructor ()
      ensures totalItems == 0 && mcpServers == [] && skills == [] && plugins == []
    {
      totalItems, mcpServers, skills, plugins := 0, [], [], [];
    }

    method Push(item: Item)
      modifies this`mcpServers, this`skills, this`plugins
      ensures mcpServers == old(mcpServers) + OfKind([item], McpServer)
      ensures skills == old(skills) + OfKind([item], Skill)
      ensures plugins == old(plugins) + OfKind([item], Plugin)
    {
      assert [item][1..] == [];
      match item.kind
      case McpServer => mcpServers := mcpServers + [item];
      case Skill => skills := skills + [item];
      case Plugin => plugins := plugins + [item];
    }
  }

  method ScanRecursive(base: Path, children: seq<Node>, cfg: Config, result: ScanResult)
    modifies result`mcpServers, result`skills, result`plugins
    ensures result.mcpServers == old(result.mcpServers) + OfKind(Scan(base, children, cfg), McpServer)
    ensures result.skills == old(result.skills) + OfKind(Scan(base, children, cfg), Skill)
    ensures result.plugins == old(result.plugins) + OfKind(Scan(base, children, cfg), Plugin)
    decreases children
  {
    hide Scan, Here, OfKind, Parses, MarkOf;
    ghost var m0, s0, p0 := result.mcpServers, result.skills, result.plugins;
    NothingScanned(base, cfg);
    for i := 0 to |children|
      invariant result.mcpServers == m0 + OfKind(Scan(base, children[..i], cfg), McpServer)
      invariant result.skills == s0 + OfKind(Scan(base, children[..i], cfg), Skill)
      invariant result.plugins == p0 + OfKind(Scan(base, children[..i], cfg), Plugin)
    {
      var c := children[i];
      ScanNext(base, children, i, cfg);
      HereIs(base, c, cfg);
      if c.Dir? {
        var below, path := c.children, base + [c.name];
        var mark := MarkOf(below);
        if mark.Some? {
          if Parses(below, mark.value, cfg) {
            result.Push(ItemFor(mark.value, c.name, path, cfg));
          }
          continue;
        }
        ScanRecursive(path, below, cfg, result);
      }
    }
    assert children[..|children|] == children;
  }

  method PerformScan(root: seq<Node>, cfg: Config) returns (result: ScanResult)
    ensures result.mcpServers == OfKind(Scan([], root, cfg), McpServer)
    ensures result.skills == OfKind(Scan([], root, cfg), Skill)
    ensures result.plugins == OfKind(Scan([], root, cfg), Plugin)
    ensures result.totalItems == |Scan([], root, cfg)|
  {
    result := new ScanResult();
    ScanRecursive([], root, cfg, result);
    KindsCover(Scan([], root, cfg));
    result.totalItems := |result.mcpServers| + |result.skills| + |result.plugins|;
  }

  // ----- step by step -----

  lemma NothingScanned(base: Path, cfg: Config)
    ensures Scan(base, [], cfg) == [] && forall kind: Kind :: OfKind([], kind) == []
  {
  }

  lemma {:induction false} ScanAppend(base: Path, a: seq<Node>, b: seq<Node>, cfg: Config)
    ensures Scan(base, a + b, cfg) == Scan(base, a, cfg) + Scan(base, b, cfg)
  {
    hide MarkOf, Parses;
    if a == [] {
      assert a + b == b;
    } else {
      assert (a + b)[1..] == a[1..] + b;
      ScanAppend(base, a[1..], b, cfg);
      ScanCons(base, a, cfg);
      ScanCons(base, a + b, cfg);
      assert (a + b)[0] == a[0];
    }
  }

  lemma HereIs(base: Path, c: Node, cfg: Config)
    ensures c.File? ==> Here(base, c, cfg) == []
    ensures c.Dir? && MarkOf(c.children).None? ==> Here(base, c, cfg) == Scan(base + [c.name], c.children, cfg)
    ensures c.Dir? && MarkOf(c.children).Some? ==>
              var kind := MarkOf(c.children).value;
              Here(base, c, cfg) == if Parses(c.children, kind, cfg) then [ItemFor(kind, c.name, base + [c.name], cfg)] else []
  {
    hide MarkOf, Parses, Scan;
  }

  lemma ScanCons(base: Path, children: seq<Node>, cfg: Config)
    requires children != []
    ensures Scan(base, children, cfg) == Here(base, children[0], cfg) + Scan(base, children[1..], cfg)
  {
    hide MarkOf, Parses;
  }

  lemma ScanNext(base: Path, children: seq<Node>, i: nat, cfg: Config)
    requires i < |children|
    ensures forall kind: Kind :: OfKind(Scan(base, children[..i + 1], cfg), kind)
                              == OfKind(Scan(base, children[..i], cfg), kind) + OfKind(Here(base, children[i], cfg), kind)
    ensures forall kind: Kind :: OfKind([], kind) == []
  {
    hide Here, MarkOf, Parses, OfKind;
    var c := children[i];
    assert children[..i + 1] == children[..i] + [c];
    ScanAppend(base, children[..i], [c], cfg);
    ScanCons(base, [c], cfg);
    NothingScanned(base, cfg);
    assert [c][1..] == [];
    assert Scan(base, [c], cfg) == Here(base, c, cfg) + [] == Here(base, c, cfg);
    forall kind: Kind
      ensures OfKind(Scan(base, children[..i + 1], cfg), kind)
           == OfKind(Scan(base, children[..i], cfg), kind) + OfKind(Here(base, c, cfg), kind)
    {
      OfKindAppend(Scan(base, children[..i], cfg), Here(base, c, cfg), kind);
    }
  }

  // ----- the three lists -----

  lemma {:induction false} OfKindIs(items: seq<Item>, kind: Kind)
    ensures forall x :: x in OfKind(items, kind) <==> x in items && x.kind == kind
  {
    if items != [] {
      OfKindIs(items[1..], kind);
    }
  }

  /** Every item is in the list of its kind and in no other; the total counts each once. */
  lemma {:induction false} KindsCover(items: seq<Item>)
    ensures |OfKind(items, McpServer)| + |OfKind(items, Skill)| + |OfKind(items, Plugin)| == |items|
    ensures forall x, kind: Kind :: x in OfKind(items, kind) <==> x in items && x.kind == kind
  {
    forall kind: Kind ensures forall x :: x in OfKind(items, kind) <==> x in items && x.kind == kind {
      OfKindIs(items, kind);
    }
    if items != [] {
      KindsCover(items[1..]);
    }
  }

  /** Each list holds its items in the order in which they were found. */
  lemma KindsInOrder(items: seq<Item>, x: Item, kind: Kind)
    ensures OfKind(items + [x], kind) == OfKind(items, kind) + (if x.kind == kind then [x] else [])
    ensures OfKind([], kind) == []
  {
    OfKindAppend(items, [x], kind);
    assert [x][1..] == [];
  }

  // ----- what one directory comes to -----

  /** As in a file system: no two entries have the same name. */
  ghost predicate NamesDiffer(children: seq<Node>) {
    forall i, j :: 0 <= i < j < |children| ==> children[i].name != children[j].name
  }

  ghost predicate NoEntry(children: seq<Node>, name: string) {
    forall i :: 0 <= i < |children| ==> children[i].name != name
  }

  lemma {:induction false} ReadIs(children: seq<Node>, i: nat)
    requires NamesDiffer(children) && i < |children|
    ensures Has(children, children[i].name)
    ensures Read(children, children[i].name) == if children[i].File? then Some(children[i].content) else None
  {
    if i > 0 {
      assert forall j :: 0 <= j < |children[1..]| ==> children[1..][j] == children[j + 1];
      ReadIs(children[1..], i - 1);
    }
  }

  lemma HasEntry(children: seq<Node>, name: string)
    ensures Has(children, name) <==> !NoEntry(children, name)
  {
  }

  lemma ScanOne(base: Path, c: Node, cfg: Config)
    ensures Scan(base, [c], cfg) == Here(base, c, cfg)
  {
    hide Here;
    ScanCons(base, [c], cfg);
    NothingScanned(base, cfg);
    assert [c][1..] == [];
  }

  /** `mcp_config.json` makes an MCP server, whatever else is there; it must be a file that parses. */
  lemma McpDirectory(base: Path, name: string, below: seq<Node>, i: nat, cfg: Config)
    requires NamesDiffer(below) && i < |below| && below[i].name == "mcp_config.json"
    ensures var installed := name in cfg.configuredMcp;
            Scan(base, [Dir(name, below)], cfg) ==
            if below[i].File? && cfg.parsers.mcp(below[i].content)
            then [Item(McpServer, name, base + [name], installed, !installed)] else []
  {
    hide Scan, Has, Read;
    ReadIs(below, i);
    ScanOne(base, Dir(name, below), cfg);
  }

  /** Without it, `skill.toml` makes a skill, if it is a file that parses. */
  lemma SkillTomlDirectory(base: Path, name: string, below: seq<Node>, i: nat, cfg: Config)
    requires NamesDiffer(below) && i < |below| && below[i].name == "skill.toml"
    requires NoEntry(below, "mcp_config.json")
    ensures var installed := name in cfg.installedSkills;
            Scan(base, [Dir(name, below)], cfg) ==
            if below[i].File? && cfg.parsers.skillToml(below[i].content)
            then [Item(Skill, name, base + [name], installed, !installed)] else []
  {
    hide Scan, Has, Read;
    ReadIs(below, i);
    HasEntry(below, "mcp_config.json");
    ScanOne(base, Dir(name, below), cfg);
  }

  /** Without these two, `SKILL.md` makes a skill, if it is a file. */
  lemma SkillMdDirectory(base: Path, name: string, below: seq<Node>, i: nat, cfg: Config)
    requires NamesDiffer(below) && i < |below| && below[i].name == "SKILL.md"
    requires NoEntry(below, "mcp_config.json") && NoEntry(below, "skill.toml")
    ensures var installed := name in cfg.installedSkills;
            Scan(base, [Dir(name, below)], cfg) ==
            if below[i].File? then [Item(Skill, name, base + [name], installed, !installed)] else []
  {
    hide Scan, Has, Read;
    ReadIs(below, i);
    HasEntry(below, "mcp_config.json");
    HasEntry(below, "skill.toml");
    ScanOne(base, Dir(name, below), cfg);
  }

  /** Without these three, `package.json` makes a plugin, if it is a file that qualifies; a plugin is never installed already. */
  lemma PluginDirectory(base: Path, name: string, below: seq<Node>, i: nat, cfg: Config)
    requires NamesDiffer(below) && i < |below| && below[i].name == "package.json"
    requires NoEntry(below, "mcp_config.json") && NoEntry(below, "skill.toml") && NoEntry(below, "SKILL.md")
    ensures Scan(base, [Dir(name, below)], cfg) ==
            if below[i].File? && cfg.parsers.plugin(below[i].content)
            then [Item(Plugin, name, base + [name], false, true)] else []
  {
    hide Scan, Has, Read;
    ReadIs(below, i);
    HasEntry(below, "mcp_config.json");
    HasEntry(below, "skill.toml");
    HasEntry(below, "SKILL.md");
    ScanOne(base, Dir(name, below), cfg);
  }

  /** Without any of the four, the directory is entered; a file is nothing. */
  lemma PlainDirectory(base: Path, name: string, below: seq<Node>, content: string, cfg: Config)
    ensures NoEntry(below, "mcp_config.json") && NoEntry(below, "skill.toml") && NoEntry(below, "SKILL.md")
            && NoEntry(below, "package.json") ==>
              Scan(base, [Dir(name, below)], cfg) == Scan(base + [name], below, cfg)
    ensures Scan(base, [File(name, content)], cfg) == []
  {
    hide Scan, Has, Read, NoEntry;
    HasEntry(below, "mcp_config.json");
    HasEntry(below, "skill.toml");
    HasEntry(below, "SKILL.md");
    HasEntry(below, "package.json");
    ScanOne(base, Dir(name, below), cfg);
    ScanOne(base, File(name, content), cfg);
  }

  // ----- what is found -----

  /** The path leads through unmarked directories to a directory with this mark whose manifest parses. */
  ghost predicate Leads(children: seq<Node>, p: Path, kind: Kind, cfg: Config)
    decreases |p|
  {
    p != [] && exists i :: 0 <= i < |children| && LeadsFrom(children[i], p, kind, cfg)
  }

  ghost predicate LeadsFrom(c: Node, p: Path, kind: Kind, cfg: Config)
    requires p != []
    decreases |p|, 0
  {
    c.Dir? && c.name == p[0] &&
    if |p| == 1 then MarkOf(c.children) == Some(kind) && Parses(c.children, kind, cfg)
    else MarkOf(c.children) == None && Leads(c.children, p[1..], kind, cfg)
  }

  function Found(base: Path, p: Path, kind: Kind, cfg: Config): Item
    requires p != []
  {
    ItemFor(kind, p[|p| - 1], base + p, cfg)
  }

  /**
   * A directory is reported exactly when it is marked, its manifest parses and no directory on the way to it,
   * below the root, is marked.
   */
  lemma {:induction false} ScanFinds(base: Path, children: seq<Node>, cfg: Config, p: Path, kind: Kind)
    requires p != []
    ensures Found(base, p, kind, cfg) in Scan(base, children, cfg) <==> Leads(children, p, kind, cfg)
    decreases children
  {
    hide MarkOf, Parses, Scan, Here, LeadsFrom;
    if children == [] {
      NothingScanned(base, cfg);
    } else {
      var c, rest := children[0], children[1..];
      ScanCons(base, children, cfg);
      ScanFinds(base, rest, cfg, p, kind);
      assert Leads(children, p, kind, cfg) <==> LeadsFrom(c, p, kind, cfg) || Leads(rest, p, kind, cfg) by {
        assert forall i :: 0 < i < |children| ==> children[i] == rest[i - 1];
      }
      if c.Dir? && p[0] == c.name && |p| > 1 {
        ScanFinds(base + [c.name], c.children, cfg, p[1..], kind);
      }
      if c.Dir? {
        ItemsBelow(base + [c.name], c.children, cfg);
      }
      HereFinds(base, c, cfg, p, kind);
    }
  }

  /** And nothing else is reported: the items are those of the directories found, under their paths. */
  lemma ScanIsExactly(base: Path, children: seq<Node>, cfg: Config, x: Item)
    ensures x in Scan(base, children, cfg)
       <==> base < x.path && x == Found(base, x.path[|base|..], x.kind, cfg)
            && Leads(children, x.path[|base|..], x.kind, cfg)
  {
    hide Scan, Leads;
    if x in Scan(base, children, cfg) {
      ItemIsFound(base, children, cfg, x);
    }
    if base < x.path {
      ScanFinds(base, children, cfg, x.path[|base|..], x.kind);
    }
  }

  lemma {:induction false} ItemIsFound(base: Path, children: seq<Node>, cfg: Config, x: Item)
    requires x in Scan(base, children, cfg)
    ensures base < x.path && x == Found(base, x.path[|base|..], x.kind, cfg)
    decreases children
  {
    hide MarkOf, Parses, Scan, Here;
    if children == [] {
      NothingScanned(base, cfg);
    } else {
      var c := children[0];
      ScanCons(base, children, cfg);
      HereIs(base, c, cfg);
      if x in Scan(base, children[1..], cfg) {
        ItemIsFound(base, children[1..], cfg, x);
      } else if MarkOf(c.children).None? {
        ItemIsFound(base + [c.name], c.children, cfg, x);
        assert base + x.path[|base|..] == x.path;
        assert x.path[|base| + 1..] == x.path[|base|..][1..];
      } else {
        assert (base + [c.name])[|base|..] == [c.name];
      }
    }
  }

  lemma HereFinds(base: Path, c: Node, cfg: Config, p: Path, kind: Kind)
    requires p != []
    requires c.Dir? && p[0] == c.name && |p| > 1 ==>
               (Found(base + [c.name], p[1..], kind, cfg) in Scan(base + [c.name], c.children, cfg)
                <==> Leads(c.children, p[1..], kind, cfg))
    requires c.Dir? ==> AllBelow(Scan(base + [c.name], c.children, cfg), base + [c.name])
    ensures Found(base, p, kind, cfg) in Here(base, c, cfg) <==> LeadsFrom(c, p, kind, cfg)
  {
    hide MarkOf, Parses, Scan, Leads;
    var x := Found(base, p, kind, cfg);
    assert (base + p)[|base|] == p[0] && |base + p| == |base| + |p|;
    if c.Dir? {
      var b := base + [c.name];
      if p[0] == c.name && |p| > 1 {
        assert b + p[1..] == base + p;
        assert p[1..][|p| - 2] == p[|p| - 1];
      }
      if p[0] == c.name && |p| == 1 {
        assert base + p == b;
      }
      if x in Here(base, c, cfg) {
        assert b <= x.path;
        assert x.path[|base|] == b[|base|] == c.name;
      }
    }
  }

  /** Every item lies properly below the directory. */
  ghost predicate AllBelow(items: seq<Item>, base: Path) {
    forall x :: x in items ==> base < x.path
  }

  lemma {:induction false} ItemsBelow(base: Path, children: seq<Node>, cfg: Config)
    ensures AllBelow(Scan(base, children, cfg), base)
    decreases children
  {
    hide MarkOf, Parses, Scan;
    if children == [] {
      NothingScanned(base, cfg);
    } else {
      var c := children[0];
      ScanCons(base, children, cfg);
      ItemsBelow(base, children[1..], cfg);
      if c.Dir? {
        ItemsBelow(base + [c.name], c.children, cfg);
        assert base < base + [c.name];
      }
    }
  }

  // ----- the antichain -----

  /** As in a file system: no two entries of a directory have the same name. */
  ghost predicate Distinct(children: seq<Node>)
    decreases children
  {
    children != [] ==>
      && (forall i :: 0 < i < |children| ==> children[i].name != children[0].name)
      && (children[0].Dir? ==> Distinct(children[0].children))
      && Distinct(children[1..])
  }

  ghost predicate Antichain(items: seq<Item>) {
    forall i, j :: 0 <= i < |items| && 0 <= j < |items| && i != j ==> !(items[i].path <= items[j].path)
  }

  /** Every item lies in or below one of the entries. */
  lemma {:induction false} ItemsUnderEntries(base: Path, children: seq<Node>, cfg: Config)
    ensures forall x :: x in Scan(base, children, cfg) ==>
              |x.path| > |base| && exists i :: 0 <= i < |children| && x.path[|base|] == children[i].name
  {
    hide MarkOf, Parses, Scan, Here;
    if children == [] {
      NothingScanned(base, cfg);
    } else {
      var c, rest := children[0], children[1..];
      ScanCons(base, children, cfg);
      ItemsUnderEntries(base, rest, cfg);
      HereUnder(base, c, cfg);
      forall x | x in Scan(base, children, cfg)
        ensures |x.path| > |base| && exists i :: 0 <= i < |children| && x.path[|base|] == children[i].name
      {
        if x in Here(base, c, cfg) {
          assert x.path[|base|] == children[0].name;
        } else {
          var i :| 0 <= i < |rest| && x.path[|base|] == rest[i].name;
          assert children[i + 1] == rest[i];
        }
      }
    }
  }

  lemma HereUnder(base: Path, c: Node, cfg: Config)
    ensures forall x :: x in Here(base, c, cfg) ==> |x.path| > |base| && x.path[|base|] == c.name
  {
    hide MarkOf, Parses, Scan;
    if c.Dir? {
      var b := base + [c.name];
      ItemsBelow(b, c.children, cfg);
      forall x | x in Here(base, c, cfg) ensures |x.path| > |base| && x.path[|base|] == c.name {
        assert b <= x.path;
        assert x.path[|base|] == b[|base|];
      }
    }
  }

  /** No reported directory is another one or lies below it. */
  lemma {:induction false} ScanIsAntichain(base: Path, children: seq<Node>, cfg: Config)
    requires Distinct(children)
    ensures Antichain(Scan(base, children, cfg))
    decreases children
  {
    hide MarkOf, Parses, Scan;
    if children == [] {
      NothingScanned(base, cfg);
    } else {
      var c, rest := children[0], children[1..];
      ScanCons(base, children, cfg);
      ScanIsAntichain(base, rest, cfg);
      if c.Dir? {
        ScanIsAntichain(base + [c.name], c.children, cfg);
      }
      HereUnder(base, c, cfg);
      ItemsUnderEntries(base, rest, cfg);
      assert forall i :: 0 <= i < |rest| ==> rest[i] == children[i + 1];
      JoinAntichains(Here(base, c, cfg), Scan(base, rest, cfg), |base|, c.name);
    }
  }

  lemma JoinAntichains(a: seq<Item>, b: seq<Item>, at: nat, name: string)
    requires Antichain(a) && Antichain(b)
    requires forall x :: x in a ==> |x.path| > at && x.path[at] == name
    requires forall x :: x in b ==> |x.path| > at && x.path[at] != name
    ensures Antichain(a + b)
  {
    var items := a + b;
    forall i, j | 0 <= i < |items| && 0 <= j < |items| && i != j ensures !(items[i].path <= items[j].path) {
      var x, y := items[i], items[j];
      assert i < |a| ==> x == a[i] && x in a;
      assert i >= |a| ==> x == b[i - |a|] && x in b;
      assert j < |a| ==> y == a[j] && y in a;
      assert j >= |a| ==> y == b[j - |a|] && y in b;
    }
  }
}
