/**
 Layered settings of backend/open_webui/config.py without Redis: an environment variable pins a
 setting; otherwise its value lives in memory and in the nested document stored in the database.
 */
module Settings {
  import opened Basics

  /** A JSON value.  Scalar stands for numbers and booleans. */
  datatype Json = Null | Text(s: string) | Scalar(s: string) | List(items: seq<Json>) | Node(fields: map<string, Json>)

  /** A dotted path, split at its dots; never empty. */
  type Path = p: seq<string> | p != [] witness [""]

  /** A lookup finds a value, finds none, or raises because it meets a value that has no keys. */
  datatype Lookup = Found(value: Json) | Absent | Raises

  predicate Contains(s: string, part: string) {
    exists i :: 0 <= i <= |s| && part <= s[i..]
  }

  /**
   get_config_value: on a text, Python's "in" is a substring test, on a list a membership test, and
   either way a key that is found cannot then be used as an index.
   */
  function Get(data: Json, path: seq<string>): Lookup
    decreases |path|
  {
    if path == [] then Found(data)
    else match data
      case Node(fields) => if path[0] in fields then Get(fields[path[0]], path[1..]) else Absent
      case Text(s) => if Contains(s, path[0]) then Raises else Absent
      case List(items) => if Text(path[0]) in items then Raises else Absent
      case Null => Raises
      case Scalar(_) => Raises
  }

  /** The value a caller of get_config_value sees: null is no value. */
  function Present(l: Lookup): Option<Json> {
    if l.Found? && !l.value.Null? then Some(l.value) else None
  }

  /** PersistentConfig.save: walk to the last key, making missing levels; None when a level has no keys. */
  function Put(data: Json, path: seq<string>, value: Json): Option<Json>
    requires path != []
    decreases |path|
  {
    if !data.Node? then None
    else if |path| == 1 then Some(Node(data.fields[path[0] := value]))
    else
      var below := Put(if path[0] in data.fields then data.fields[path[0]] else Node(map[]), path[1..], value);
      if below.Some? then Some(Node(data.fields[path[0] := below.value])) else None
  }

  /** Neither path leads through the other. */
  predicate Apart(p: seq<string>, q: seq<string>) {
    !(p <= q) && !(q <= p)
  }

  lemma {:induction false} GetAfterPut(data: Json, path: seq<string>, value: Json)
    requires path != [] && Put(data, path, value).Some?
    ensures Get(Put(data, path, value).value, path) == Found(value)
    decreases |path|
  {
    if |path| > 1 {
      GetAfterPut(if path[0] in data.fields then data.fields[path[0]] else Node(map[]), path[1..], value);
    } else {
      assert path[1..] == [];
    }
  }

  /** Reading goes key by key: a longer path is read below the value the shorter one finds. */
  lemma {:induction false} GetBelow(data: Json, path: seq<string>, below: seq<string>)
    ensures Get(data, path + below) ==
      if Get(data, path).Found? then Get(Get(data, path).value, below) else Get(data, path)
    decreases |path|
  {
    if path == [] {
      assert path + below == below;
    } else {
      assert (path + below)[1..] == path[1..] + below;
      if data.Node? && path[0] in data.fields {
        GetBelow(data.fields[path[0]], path[1..], below);
      }
    }
  }

  /** One key: a dictionary has it or not; a text or a list that contains it, and anything else that is no dictionary, raises. */
  lemma GetOneKey(data: Json, key: string)
    ensures data.Node? && key in data.fields ==> Get(data, [key]) == Found(data.fields[key])
    ensures data.Node? && key !in data.fields ==> Get(data, [key]) == Absent
    ensures data.List? ==> Get(data, [key]) == if Text(key) in data.items then Raises else Absent
    ensures data.Null? || data.Scalar? ==> Get(data, [key]) == Raises
    ensures data.Text? ==> !Get(data, [key]).Found?
    ensures data.Text? ==>
      (Get(data, [key]).Raises? <==> exists i, j :: 0 <= i <= j <= |data.s| && data.s[i..j] == key)
  {
    assert [key][1..] == [];
    if data.Text? {
      ContainsExactly(data.s, key);
    }
  }

  lemma ContainsExactly(s: string, part: string)
    ensures Contains(s, part) <==> exists i, j :: 0 <= i <= j <= |s| && s[i..j] == part
  {
    if i :| 0 <= i <= |s| && part <= s[i..] {
      assert s[i..i + |part|] == part;
    }
    if i, j :| 0 <= i <= j <= |s| && s[i..j] == part {
      assert s[i..][..j - i] == part;
      assert part <= s[i..];
    }
  }

  /** A save never disturbs a path apart from its own. */
  lemma {:induction false} PutLeavesOthers(data: Json, path: seq<string>, value: Json, other: seq<string>)
    requires path != [] && Apart(path, other) && Put(data, path, value).Some?
    ensures Get(Put(data, path, value).value, other) == Get(data, other)
    decreases |path|
  {
    var key := path[0];
    if other[0] == key {
      assert path == [key] + path[1..] && other == [key] + other[1..];
      assert Apart(path[1..], other[1..]);
      var inner := if key in data.fields then data.fields[key] else Node(map[]);
      PutLeavesOthers(inner, path[1..], value, other[1..]);
    }
  }

  /** Where a save finds a level without keys, nothing is stored at the path. */
  lemma {:induction false} PutRefused(data: Json, path: seq<string>, value: Json)
    requires path != [] && Put(data, path, value).None?
    ensures Present(Get(data, path)) == None
    decreases |path|
  {
    if data.Node? && path[0] in data.fields {
      PutRefused(data.fields[path[0]], path[1..], value);
    }
  }

  /** A save is refused exactly when some level on the way holds a value that is no dictionary. */
  lemma {:induction false} PutRefusedExactly(data: Json, path: seq<string>, value: Json)
    requires path != []
    ensures Put(data, path, value).None? <==> exists n :: 0 <= n < |path| && BlocksAt(data, path, n)
    decreases |path|
  {
    assert path[..0] == [];
    if !data.Node? {
      assert BlocksAt(data, path, 0);
    } else if |path| > 1 {
      var below := if path[0] in data.fields then data.fields[path[0]] else Node(map[]);
      PutRefusedExactly(below, path[1..], value);
      forall n | 0 <= n < |path| - 1 ensures path[1..][..n] == path[..n + 1][1..] {
      }
      if n :| 0 <= n < |path| - 1 && BlocksAt(below, path[1..], n) {
        if path[0] !in data.fields {
          EmptyBlocksNothing(path[1..], n);
        }
        assert BlocksAt(data, path, n + 1);
      }
      if n :| 0 <= n < |path| && BlocksAt(data, path, n) {
        assert BlocksAt(below, path[1..], n - 1);
      }
    }
  }

  predicate BlocksAt(data: Json, path: seq<string>, n: nat)
    requires n <= |path|
  {
    Get(data, path[..n]).Found? && !Get(data, path[..n]).value.Node?
  }

  lemma EmptyBlocksNothing(path: seq<string>, n: nat)
    requires n <= |path|
    ensures !BlocksAt(Node(map[]), path, n)
  {
  }

  // ---- The settings

  /** One PersistentConfig; pinned says whether its environment variable is set. */
  datatype Setting = Setting(path: Path, pinned: bool, default: Json, value: Json)

  datatype Config = Config(data: Json, settings: seq<Setting>)

  /** The constructor's choice of first value; persistent is ENABLE_PERSISTENT_CONFIG. */
  function FirstValue(data: Json, path: Path, pinned: bool, default: Json, persistent: bool): Json {
    var stored := Present(Get(data, path));
    if !pinned && stored.Some? && persistent then stored.value else default
  }

  /**
   The environment wins; the stored value counts when there is one, it is not null and persistence
   is on; otherwise the default does.
   */
  lemma FirstValueExactly(data: Json, path: Path, pinned: bool, default: Json, persistent: bool)
    ensures pinned || !persistent ==> FirstValue(data, path, pinned, default, persistent) == default
    ensures !pinned && persistent && Get(data, path).Found? && Get(data, path).value != Null ==>
      FirstValue(data, path, pinned, default, persistent) == Get(data, path).value
    ensures (Get(data, path).Found? ==> Get(data, path).value == Null) ==>
      FirstValue(data, path, pinned, default, persistent) == default
  {
  }

  /** Paths of different settings lie apart. */
  ghost predicate PathsApart(c: Config) {
    forall i, j :: 0 <= i < |c.settings| && 0 <= j < |c.settings| && i != j ==> Apart(c.settings[i].path, c.settings[j].path)
  }

  /**
   AppConfig.__setattr__: nothing for an unknown key or a pinned setting; otherwise the value
   changes even when the save then raises.
   */
  function Write(c: Config, i: nat, value: Json): Config {
    if i >= |c.settings| || c.settings[i].pinned then c
    else
      var s := c.settings[i];
      var saved := Put(c.data, s.path, value);
      Config(if saved.Some? then saved.value else c.data, c.settings[i := s.(value := value)])
  }

  /** PersistentConfig.update after an import. */
  function Updated(s: Setting, data: Json): Setting {
    if s.pinned || Present(Get(data, s.path)).None? then s else s.(value := Present(Get(data, s.path)).value)
  }

  /** The update of this setting raises. */
  predicate Unreadable(s: Setting, data: Json) {
    !s.pinned && Get(data, s.path).Raises?
  }

  predicate AllReadable(settings: seq<Setting>, data: Json) {
    forall s :: s in settings ==> !Unreadable(s, data)
  }

  /** save_config: every setting up to the first unreadable one is updated. */
  function UpdateAll(settings: seq<Setting>, data: Json): seq<Setting>
    decreases |settings|
  {
    if settings == [] || Unreadable(settings[0], data) then settings
    else [Updated(settings[0], data)] + UpdateAll(settings[1..], data)
  }

  function Import(c: Config, data: Json): Config {
    Config(data, UpdateAll(c.settings, data))
  }

  lemma {:induction false} UpdateAllAt(settings: seq<Setting>, data: Json, i: nat)
    requires i < |settings|
    ensures |UpdateAll(settings, data)| == |settings|
    ensures UpdateAll(settings, data)[i] ==
      if exists j :: 0 <= j <= i && Unreadable(settings[j], data) then settings[i] else Updated(settings[i], data)
    decreases |settings|
  {
    if Unreadable(settings[0], data) {
    } else if i == 0 {
      if |settings| > 1 {
        UpdateAllAt(settings[1..], data, 0);
      }
    } else {
      UpdateAllAt(settings[1..], data, i - 1);
      assert forall j :: 0 <= j < i ==> settings[1..][j] == settings[j + 1];
      if exists j :: 0 <= j <= i && Unreadable(settings[j], data) {
        var j :| 0 <= j <= i && Unreadable(settings[j], data);
        assert Unreadable(settings[1..][j - 1], data);
      }
    }
  }

  // ---- Runs

  datatype Command = Save(setting: nat, value: Json) | Load(data: Json)

  function Execute(c: Config, cmd: Command): Config {
    match cmd
    case Save(i, value) => Write(c, i, value)
    case Load(data) => Import(c, data)
  }

  function ExecuteAll(c: Config, cmds: seq<Command>): Config
    decreases |cmds|
  {
    if cmds == [] then c else ExecuteAll(Execute(c, cmds[0]), cmds[1..])
  }

  /** What a command gives to setting i, if anything.  An import that raises earlier gives nothing. */
  ghost function Assigned(cmd: Command, i: nat, settings: seq<Setting>): Option<Json>
    requires i < |settings|
  {
    if settings[i].pinned then None
    else match cmd
      case Save(j, value) => if i == j then Some(value) else None
      case Load(data) =>
        if exists j :: 0 <= j <= i && Unreadable(settings[j], data) then None else Present(Get(data, settings[i].path))
  }

  /** The latest assignment of a run to setting i, or the value it started with. */
  ghost function LastAssigned(cmds: seq<Command>, i: nat, settings: seq<Setting>): Json
    requires i < |settings|
    decreases |cmds|
  {
    if cmds == [] then settings[i].value
    else Or(Assigned(cmds[|cmds| - 1], i, settings), LastAssigned(cmds[..|cmds| - 1], i, settings))
  }

  /** Commands change values only: paths, pins and defaults stay. */
  ghost predicate SameShape(a: seq<Setting>, b: seq<Setting>) {
    |a| == |b| && forall i :: 0 <= i < |a| ==> a[i] == b[i].(value := a[i].value)
  }

  lemma ExecuteAt(c: Config, cmd: Command, i: nat)
    requires i < |c.settings|
    ensures |Execute(c, cmd).settings| == |c.settings|
    ensures Execute(c, cmd).settings[i] == c.settings[i].(value := Or(Assigned(cmd, i, c.settings), c.settings[i].value))
  {
    if cmd.Load? {
      UpdateAllAt(c.settings, cmd.data, i);
    }
  }

  lemma ExecuteShape(c: Config, cmd: Command)
    ensures SameShape(Execute(c, cmd).settings, c.settings)
  {
    if c.settings == [] && cmd.Load? {
      assert UpdateAll(c.settings, cmd.data) == [];
    } else if c.settings != [] {
      ExecuteAt(c, cmd, 0);
    }
    forall i | 0 <= i < |c.settings|
      ensures Execute(c, cmd).settings[i] == c.settings[i].(value := Execute(c, cmd).settings[i].value)
    {
      ExecuteAt(c, cmd, i);
    }
  }

  lemma AssignedShape(cmd: Command, i: nat, a: seq<Setting>, b: seq<Setting>)
    requires SameShape(a, b) && i < |a|
    ensures Assigned(cmd, i, a) == Assigned(cmd, i, b)
  {
    if cmd.Load? {
      assert forall j :: 0 <= j < |a| ==> (Unreadable(a[j], cmd.data) <==> Unreadable(b[j], cmd.data));
    }
  }

  lemma {:induction false} LastAssignedStep(cmds: seq<Command>, i: nat, settings: seq<Setting>, next: seq<Setting>)
    requires cmds != [] && SameShape(next, settings) && i < |settings|
    requires next[i].value == Or(Assigned(cmds[0], i, settings), settings[i].value)
    ensures LastAssigned(cmds, i, settings) == LastAssigned(cmds[1..], i, next)
    decreases |cmds|
  {
    var n := |cmds| - 1;
    if n > 0 {
      LastAssignedStep(cmds[..n], i, settings, next);
      assert cmds[..n][1..] == cmds[1..][..n - 1];
      AssignedShape(cmds[n], i, next, settings);
    } else {
      assert LastAssigned(cmds[..0], i, settings) == settings[i].value;
    }
  }

  /**
   After any run each setting holds the later of its last write and the last import that gave it
   a non-null value; a pinned setting never changes.
   */
  lemma {:induction false} RunValue(c: Config, cmds: seq<Command>, i: nat)
    requires i < |c.settings|
    ensures |ExecuteAll(c, cmds).settings| == |c.settings|
    ensures ExecuteAll(c, cmds).settings[i] == c.settings[i].(value := LastAssigned(cmds, i, c.settings))
    ensures c.settings[i].pinned ==> ExecuteAll(c, cmds).settings[i] == c.settings[i]
    decreases |cmds|
  {
    if cmds != [] {
      var next := Execute(c, cmds[0]);
      ExecuteAt(c, cmds[0], i);
      ExecuteShape(c, cmds[0]);
      LastAssignedStep(cmds, i, c.settings, next.settings);
      RunValue(next, cmds[1..], i);
    }
  }

  // ---- Memory and database

  /** A value stored at an unpinned setting's path is its value. */
  predicate AgreesAt(c: Config, i: nat)
    requires i < |c.settings|
  {
    || c.settings[i].pinned
    || Present(Get(c.data, c.settings[i].path)).None?
    || Present(Get(c.data, c.settings[i].path)).value == c.settings[i].value
  }

  ghost predicate Agrees(c: Config) {
    PathsApart(c) && forall i :: 0 <= i < |c.settings| ==> AgreesAt(c, i)
  }

  /** The import finds no value for this setting, or the one it has. */
  predicate FindsNothingElse(s: Setting, data: Json) {
    s.pinned || Present(Get(data, s.path)).None? || Present(Get(data, s.path)).value == s.value
  }

  /** The updates of this import raise before they are past setting i. */
  predicate Blocked(settings: seq<Setting>, data: Json, i: nat) {
    exists j :: 0 <= j <= i && j < |settings| && Unreadable(settings[j], data)
  }

  /** Of the settings an import does not reach, each finds nothing else in it. */
  predicate LeavesNothingBehind(settings: seq<Setting>, data: Json) {
    forall i :: 0 <= i < |settings| && Blocked(settings, data, i) ==> FindsNothingElse(settings[i], data)
  }

  lemma ImportAgreesAt(c: Config, data: Json, i: nat)
    requires i < |c.settings|
    ensures |Import(c, data).settings| == |c.settings|
    ensures AgreesAt(Import(c, data), i) <==> !Blocked(c.settings, data, i) || FindsNothingElse(c.settings[i], data)
  {
    UpdateAllAt(c.settings, data, i);
  }

  lemma PathsStayApart(c: Config, cmd: Command)
    requires PathsApart(c)
    ensures PathsApart(Execute(c, cmd))
  {
    ExecuteShape(c, cmd);
  }

  /** Whatever was there before: an import brings memory and database together exactly when it leaves nothing behind. */
  lemma ImportAgreesExactly(c: Config, data: Json)
    requires PathsApart(c)
    ensures Agrees(Import(c, data)) <==> LeavesNothingBehind(c.settings, data)
  {
    PathsStayApart(c, Load(data));
    ExecuteShape(c, Load(data));
    forall i | 0 <= i < |c.settings|
      ensures AgreesAt(Import(c, data), i) <==> !Blocked(c.settings, data, i) || FindsNothingElse(c.settings[i], data)
    {
      ImportAgreesAt(c, data, i);
    }
  }

  /** A write brings its own setting into agreement and changes nothing for the others. */
  lemma WriteAgreesAt(c: Config, j: nat, value: Json, i: nat)
    requires PathsApart(c) && i < |c.settings|
    ensures |Write(c, j, value).settings| == |c.settings|
    ensures AgreesAt(Write(c, j, value), i) <==> i == j || AgreesAt(c, i)
  {
    if j < |c.settings| && !c.settings[j].pinned {
      if Put(c.data, c.settings[j].path, value).None? {
        PutRefused(c.data, c.settings[j].path, value);
      } else if i == j {
        GetAfterPut(c.data, c.settings[j].path, value);
      } else {
        PutLeavesOthers(c.data, c.settings[j].path, value, c.settings[i].path);
      }
    }
  }

  lemma WriteAgrees(c: Config, j: nat, value: Json)
    requires Agrees(c)
    ensures Agrees(Write(c, j, value))
  {
    PathsStayApart(c, Save(j, value));
    ExecuteShape(c, Save(j, value));
    forall i | 0 <= i < |c.settings| ensures AgreesAt(Write(c, j, value), i) {
      WriteAgreesAt(c, j, value, i);
    }
  }

  /** Each import of the run leaves nothing behind where it is taken. */
  predicate AllReach(c: Config, cmds: seq<Command>)
    decreases |cmds|
  {
    cmds != [] ==>
      && (cmds[0].Load? ==> LeavesNothingBehind(c.settings, cmds[0].data))
      && AllReach(Execute(c, cmds[0]), cmds[1..])
  }

  /** Memory and database agree at the start of the run and after every command. */
  ghost predicate AlwaysAgrees(c: Config, cmds: seq<Command>)
    decreases |cmds|
  {
    Agrees(c) && (cmds != [] ==> AlwaysAgrees(Execute(c, cmds[0]), cmds[1..]))
  }

  /** Over any run memory and database agree at every moment exactly when no import leaves a setting behind. */
  lemma {:induction false} RunAgrees(c: Config, cmds: seq<Command>)
    requires Agrees(c)
    ensures AlwaysAgrees(c, cmds) <==> AllReach(c, cmds)
    decreases |cmds|
  {
    if cmds != [] {
      var next := Execute(c, cmds[0]);
      match cmds[0] {
        case Save(j, value) => WriteAgrees(c, j, value);
        case Load(data) => ImportAgreesExactly(c, data);
      }
      if Agrees(next) {
        RunAgrees(next, cmds[1..]);
      } else {
        assert !AlwaysAgrees(next, cmds[1..]);
      }
    }
  }

  predicate Writes(cmds: seq<Command>, i: nat) {
    exists n :: 0 <= n < |cmds| && cmds[n].Save? && cmds[n].setting == i
  }

  lemma {:induction false} SavesAgreeAt(c: Config, saves: seq<Command>, i: nat)
    requires PathsApart(c) && i < |c.settings| && forall n :: 0 <= n < |saves| ==> saves[n].Save?
    ensures |ExecuteAll(c, saves).settings| == |c.settings|
    ensures AgreesAt(ExecuteAll(c, saves), i) <==> AgreesAt(c, i) || Writes(saves, i)
    decreases |saves|
  {
    if saves != [] {
      var s := saves[0];
      PathsStayApart(c, s);
      WriteAgreesAt(c, s.setting, s.value, i);
      assert forall n :: 0 <= n < |saves[1..]| ==> saves[1..][n] == saves[n + 1];
      SavesAgreeAt(Execute(c, s), saves[1..], i);
      assert Writes(saves, i) <==> s.setting == i || Writes(saves[1..], i) by {
        if n :| 0 <= n < |saves| && saves[n].Save? && saves[n].setting == i && n > 0 {
          assert saves[1..][n - 1] == saves[n];
        }
      }
    }
  }

  /**
   After a run whose last import is this one, whatever came before and however unreadable: a setting
   is in agreement exactly when the import reached it, or found nothing else for it, or it was
   written since.
   */
  lemma EndAgreesExactly(c: Config, before: seq<Command>, data: Json, saves: seq<Command>, i: nat)
    requires PathsApart(c) && i < |c.settings| && forall n :: 0 <= n < |saves| ==> saves[n].Save?
    ensures var met := ExecuteAll(c, before);
      var end := ExecuteAll(Import(met, data), saves);
      && |met.settings| == |end.settings| == |c.settings|
      && (AgreesAt(end, i) <==> !Blocked(met.settings, data, i) || FindsNothingElse(met.settings[i], data) || Writes(saves, i))
  {
    var met := ExecuteAll(c, before);
    RunStaysApart(c, before);
    PathsStayApart(met, Load(data));
    ImportAgreesAt(met, data, i);
    SavesAgreeAt(Import(met, data), saves, i);
  }

  lemma {:induction false} RunStaysApart(c: Config, cmds: seq<Command>)
    requires PathsApart(c)
    ensures PathsApart(ExecuteAll(c, cmds)) && SameShape(ExecuteAll(c, cmds).settings, c.settings)
    decreases |cmds|
  {
    if cmds != [] {
      PathsStayApart(c, cmds[0]);
      ExecuteShape(c, cmds[0]);
      RunStaysApart(Execute(c, cmds[0]), cmds[1..]);
    }
  }

  // ---- Restarting

  /** Every constructor gets past its look at the document, which it takes before it looks at the environment. */
  predicate Starts(settings: seq<Setting>, data: Json) {
    forall i :: 0 <= i < |settings| ==> !Get(data, settings[i].path).Raises?
  }

  /** The settings as a new process builds them from the stored document and the same environment; None when one raises. */
  function Restarted(c: Config, persistent: bool): Option<seq<Setting>> {
    if !Starts(c.settings, c.data) then None
    else Some(seq(|c.settings|, i requires 0 <= i < |c.settings| => FirstSetting(c.data, c.settings[i], persistent)))
  }

  function FirstSetting(data: Json, s: Setting, persistent: bool): Setting {
    s.(value := FirstValue(data, s.path, s.pinned, s.default, persistent))
  }

  lemma StartsShape(a: seq<Setting>, b: seq<Setting>, data: Json)
    requires SameShape(a, b)
    ensures Starts(a, data) <==> Starts(b, data)
  {
    assert forall i :: 0 <= i < |a| ==> a[i].path == b[i].path;
  }

  /** Where a save goes through, the path was readable before. */
  lemma {:induction false} PutReads(data: Json, path: seq<string>, value: Json)
    requires path != [] && Put(data, path, value).Some?
    ensures !Get(data, path).Raises?
    decreases |path|
  {
    if path[0] in data.fields && |path| > 1 {
      PutReads(data.fields[path[0]], path[1..], value);
    } else if path[0] in data.fields {
      assert path[1..] == [];
    }
  }

  lemma WriteReadsAt(c: Config, j: nat, value: Json, i: nat)
    requires PathsApart(c) && i < |c.settings|
    ensures Get(Write(c, j, value).data, c.settings[i].path).Raises? <==> Get(c.data, c.settings[i].path).Raises?
  {
    if j < |c.settings| && !c.settings[j].pinned && Put(c.data, c.settings[j].path, value).Some? {
      if i == j {
        PutReads(c.data, c.settings[j].path, value);
        GetAfterPut(c.data, c.settings[j].path, value);
      } else {
        PutLeavesOthers(c.data, c.settings[j].path, value, c.settings[i].path);
      }
    }
  }

  /** A write never decides whether the next process starts. */
  lemma WriteStarts(c: Config, j: nat, value: Json)
    requires PathsApart(c)
    ensures Starts(Write(c, j, value).settings, Write(c, j, value).data) <==> Starts(c.settings, c.data)
  {
    var e := Write(c, j, value);
    ExecuteShape(c, Save(j, value));
    StartsShape(e.settings, c.settings, e.data);
    forall i | 0 <= i < |c.settings|
      ensures Get(e.data, c.settings[i].path).Raises? <==> Get(c.data, c.settings[i].path).Raises?
    {
      WriteReadsAt(c, j, value, i);
    }
  }

  /** The document of the last import, or the first document when there was none. */
  function LastImport(cmds: seq<Command>, first: Json): Json
    decreases |cmds|
  {
    if cmds == [] then first else LastImport(cmds[1..], if cmds[0].Load? then cmds[0].data else first)
  }

  lemma {:induction false} LastImportStarts(settings: seq<Setting>, cmds: seq<Command>, a: Json, b: Json)
    requires Starts(settings, a) <==> Starts(settings, b)
    ensures Starts(settings, LastImport(cmds, a)) <==> Starts(settings, LastImport(cmds, b))
    decreases |cmds|
  {
    if cmds != [] && !cmds[0].Load? {
      LastImportStarts(settings, cmds[1..], a, b);
    }
  }

  /**
   After any run a new process starts exactly when every setting, pinned or not, can read the last
   import, or the first document when nothing was imported.
   */
  lemma {:induction false} RunStartsExactly(c: Config, cmds: seq<Command>)
    requires PathsApart(c)
    ensures Restarted(ExecuteAll(c, cmds), true).Some? <==> Starts(c.settings, LastImport(cmds, c.data))
    decreases |cmds|
  {
    if cmds != [] {
      var next := Execute(c, cmds[0]);
      PathsStayApart(c, cmds[0]);
      ExecuteShape(c, cmds[0]);
      RunStartsExactly(next, cmds[1..]);
      StartsShape(next.settings, c.settings, LastImport(cmds[1..], next.data));
      if cmds[0].Save? {
        WriteStarts(c, cmds[0].setting, cmds[0].value);
        StartsShape(next.settings, c.settings, next.data);
        LastImportStarts(c.settings, cmds[1..], next.data, c.data);
      }
    }
  }

  /** A document every setting can read was reached in full, so memory agrees with it. */
  lemma {:induction false} StartingAgrees(c: Config, cmds: seq<Command>)
    requires PathsApart(c) && (Starts(c.settings, c.data) ==> Agrees(c))
    ensures var e := ExecuteAll(c, cmds); Starts(e.settings, e.data) ==> Agrees(e)
    decreases |cmds|
  {
    if cmds != [] {
      var next := Execute(c, cmds[0]);
      PathsStayApart(c, cmds[0]);
      ExecuteShape(c, cmds[0]);
      StartsShape(next.settings, c.settings, next.data);
      match cmds[0] {
        case Save(j, value) =>
          WriteStarts(c, j, value);
          if Agrees(c) {
            WriteAgrees(c, j, value);
          }
        case Load(data) => ImportAgreesExactly(c, data);
      }
      StartingAgrees(next, cmds[1..]);
    }
  }

  /**
   After any run a restart brings an unpinned value back exactly when every setting can read the
   last import, and the document holds a non-null value at its path or the value is the default.
   */
  lemma RestartKeepsValue(c: Config, cmds: seq<Command>, i: nat)
    requires Agrees(c) && i < |c.settings| && !c.settings[i].pinned
    ensures var e := ExecuteAll(c, cmds); var r := Restarted(e, true);
      && |e.settings| == |c.settings|
      && (r.Some? && r.value[i].value == e.settings[i].value <==>
           && Starts(c.settings, LastImport(cmds, c.data))
           && (Present(Get(e.data, e.settings[i].path)).Some? || e.settings[i].value == e.settings[i].default))
  {
    RunStartsExactly(c, cmds);
    StartingAgrees(c, cmds);
    RunStaysApart(c, cmds);
    assert Restarted(ExecuteAll(c, cmds), true).Some? ==> AgreesAt(ExecuteAll(c, cmds), i);
  }

  /**
   After any run, a new process that starts gives a pinned setting the value of the environment, and
   without persistence every setting its default, whatever was written, imported or stored.
   */
  lemma RestartWithoutStore(c: Config, cmds: seq<Command>, persistent: bool, i: nat)
    requires PathsApart(c) && i < |c.settings| && (c.settings[i].pinned || !persistent)
    ensures var r := Restarted(ExecuteAll(c, cmds), persistent);
      && (r.Some? <==> Starts(c.settings, LastImport(cmds, c.data)))
      && (r.Some? ==> |r.value| == |c.settings| && r.value[i] == c.settings[i].(value := c.settings[i].default))
  {
    RunStartsExactly(c, cmds);
    RunStaysApart(c, cmds);
  }

  /** A value saved, not null, into a document every setting can read survives a restart whatever other settings were written since. */
  lemma {:induction false} WrittenValueSurvives(c: Config, cmds: seq<Command>, i: nat, value: Json)
    requires PathsApart(c) && Starts(c.settings, c.data) && i < |c.settings| && !c.settings[i].pinned && !value.Null?
    requires cmds != [] && cmds[0] == Save(i, value) && Put(c.data, c.settings[i].path, value).Some?
    requires forall n :: 0 < n < |cmds| ==> cmds[n].Save? && cmds[n].setting != i
    ensures var e := ExecuteAll(c, cmds); var r := Restarted(e, true);
      && |e.settings| == |c.settings|
      && Get(e.data, e.settings[i].path) == Found(value)
      && r.Some? && r.value[i].value == value
  {
    GetAfterPut(c.data, c.settings[i].path, value);
    PathsStayApart(c, cmds[0]);
    ExecuteAt(c, cmds[0], i);
    assert forall n :: 0 <= n < |cmds[1..]| ==> cmds[1..][n] == cmds[n + 1];
    SavesLeavePath(Execute(c, cmds[0]), cmds[1..], i);
    RunStartsExactly(c, cmds);
    SavesImportNothing(cmds, c.data);
  }

  lemma {:induction false} SavesImportNothing(cmds: seq<Command>, first: Json)
    requires forall n :: 0 <= n < |cmds| ==> cmds[n].Save?
    ensures LastImport(cmds, first) == first
    decreases |cmds|
  {
    if cmds != [] {
      assert forall n :: 0 <= n < |cmds[1..]| ==> cmds[1..][n] == cmds[n + 1];
      SavesImportNothing(cmds[1..], first);
    }
  }

  lemma {:induction false} SavesLeavePath(c: Config, cmds: seq<Command>, i: nat)
    requires PathsApart(c) && i < |c.settings|
    requires forall n :: 0 <= n < |cmds| ==> cmds[n].Save? && cmds[n].setting != i
    ensures var e := ExecuteAll(c, cmds);
      && |e.settings| == |c.settings| && e.settings[i] == c.settings[i]
      && Get(e.data, c.settings[i].path) == Get(c.data, c.settings[i].path)
    decreases |cmds|
  {
    if cmds != [] {
      var j := cmds[0].setting;
      PathsStayApart(c, cmds[0]);
      ExecuteAt(c, cmds[0], i);
      if j < |c.settings| && !c.settings[j].pinned && Put(c.data, c.settings[j].path, cmds[0].value).Some? {
        PutLeavesOthers(c.data, c.settings[j].path, cmds[0].value, c.settings[i].path);
      }
      assert forall n :: 0 <= n < |cmds[1..]| ==> cmds[1..][n] == cmds[n + 1];
      SavesLeavePath(Execute(c, cmds[0]), cmds[1..], i);
    }
  }

  // ---- Concrete losses

  /** Two settings, the first of which expects a level where this document has a number. */
  lemma NumberForALevel(pinned: bool) returns (c: Config, data: Json)
    ensures Agrees(c) && |c.settings| == 2 && c.settings[0].pinned == pinned && !c.settings[1].pinned
    ensures Starts(c.settings, c.data)
    ensures Get(data, c.settings[0].path) == Raises
    ensures Get(data, c.settings[1].path) == Found(Text("north")) && c.settings[1].value == Text("south")
  {
    var near := Setting(["map", "zoom"], pinned, Null, Null);
    var region := Setting(["region"], false, Text("south"), Text("south"));
    c := Config(Node(map[]), [near, region]);
    data := Node(map["map" := Scalar("7"), "region" := Text("north")]);
    assert Get(Node(map[]), ["region"]) == Absent && Get(Node(map[]), ["map", "zoom"]) == Absent;
    assert Get(Scalar("7"), ["zoom"]) == Raises && ["map", "zoom"][1..] == ["zoom"];
    assert ["region"][1..] == [] && Get(Text("north"), []) == Found(Text("north"));
  }

  /** An import with a number where one setting expects a level leaves the next setting out of step with the document. */
  lemma UnreadableImportDisagrees() returns (c: Config, data: Json)
    ensures Agrees(c) && !Agrees(Execute(c, Load(data)))
  {
    c, data := NumberForALevel(false);
    assert Unreadable(c.settings[0], data);
    assert Blocked(c.settings, data, 1) && !FindsNothingElse(c.settings[1], data);
    ImportAgreesExactly(c, data);
  }

  /** The same import, with the first setting pinned, updates everything and reports success, and no new process starts. */
  lemma AcceptedImportStopsStart() returns (c: Config, data: Json)
    ensures Agrees(c) && Restarted(c, true).Some? && AllReadable(c.settings, data)
    ensures Agrees(Execute(c, Load(data))) && Restarted(Execute(c, Load(data)), true).None?
  {
    c, data := NumberForALevel(true);
    ImportAgreesExactly(c, data);
    ExecuteShape(c, Load(data));
    StartsShape(Execute(c, Load(data)).settings, c.settings, data);
  }

  /** An import without the path leaves the written value in memory only; a restart brings back the default. */
  lemma ImportThenRestartLosesValue() returns (c: Config, cmds: seq<Command>)
    ensures Agrees(c) && |c.settings| == 1
    ensures var e := ExecuteAll(c, cmds); var r := Restarted(e, true);
      |e.settings| == 1 && e.settings[0].value == Text("north") && r.Some? && r.value[0].value == Text("south")
  {
    var s := Setting(["region"], false, Text("south"), Text("south"));
    c := Config(Node(map[]), [s]);
    var later := [Load(Node(map[]))];
    cmds := [Save(0, Text("north"))] + later;
    var data := Node(map["region" := Text("north")]);
    assert Get(Node(map[]), ["region"]) == Absent;
    assert Put(Node(map[]), ["region"], Text("north")) == Some(data);
    var c1 := Execute(c, cmds[0]);
    assert c1 == Config(data, [s.(value := Text("north"))]);
    var c2 := Execute(c1, later[0]);
    ExecuteAt(c1, later[0], 0);
    assert Get(Node(map[]), s.path) == Absent;
    assert c2.settings == [s.(value := Text("north"))];
    assert cmds[1..] == later && later[1..] == [];
    assert ExecuteAll(c2, []) == c2 && ExecuteAll(c1, later) == c2 && ExecuteAll(c, cmds) == c2;
  }

  // ---- The levels a save walks through

  type Fields = map<string, Json>

  /** The document whose levels these are, with something below the last one. */
  function Wrapped(levels: seq<Fields>, keys: seq<string>, below: Option<Json>): Option<Json>
    requires |levels| == |keys|
    decreases |levels|
  {
    if levels == [] || below.None? then below
    else
      var n := |levels| - 1;
      Wrapped(levels[..n], keys[..n], Some(Node(levels[n][keys[n] := below.value])))
  }

  lemma WrappedNone(levels: seq<Fields>, keys: seq<string>)
    requires |levels| == |keys|
    ensures Wrapped(levels, keys, None) == None
  {
  }

  /** The loop stopped at setting i, or ran through: the registry is then what UpdateAll says. */
  lemma StoppedAt(before: seq<Setting>, now: seq<Setting>, data: Json, i: nat)
    requires i <= |before| == |now| && AllReadable(before[..i], data)
    requires i < |before| ==> Unreadable(before[i], data)
    requires forall j :: 0 <= j < |before| ==> now[j] == if j < i then Updated(before[j], data) else before[j]
    ensures now == UpdateAll(before, data)
    ensures AllReadable(before, data) <==> i == |before|
  {
    forall j | 0 <= j < i ensures !Unreadable(before[j], data) {
      assert before[..i][j] == before[j];
    }
    if before == [] {
      assert UpdateAll(before, data) == [];
    } else {
      UpdateAllAt(before, data, 0);
      forall j | 0 <= j < |before| ensures now[j] == UpdateAll(before, data)[j] {
        UpdateAllAt(before, data, j);
      }
    }
  }

  // ---- The module's state, step by step

  class ConfigModule {
    var data: Json
    var registry: seq<Setting>

    function Value(): Config
      reads this
    {
      Config(data, registry)
    }

    /** PersistentConfig.__init__: choose the first value and register, or raise on an unreadable document. */
    method Register(path: Path, pinned: bool, default: Json, persistent: bool) returns (raised: bool)
      modifies this`registry
      ensures raised <==> Get(data, path).Raises?
      ensures raised ==> registry == old(registry)
      ensures !raised ==>
        registry == old(registry) + [Setting(path, pinned, default, FirstValue(data, path, pinned, default, persistent))]
    {
      var stored := Read(path);
      if stored.Raises? {
        return true;
      }
      var value := default;
      if pinned {
        value := default;
      } else if stored != Found(Null) && stored.Found? && persistent {
        value := stored.value;
      }
      registry := registry + [Setting(path, pinned, default, value)];
      raised := false;
    }

    method Read(path: Path) returns (l: Lookup)
      ensures l == Get(data, path)
    {
      var cursor := data;
      for i := 0 to |path|
        invariant Get(cursor, path[i..]) == Get(data, path)
      {
        assert path[i..][1..] == path[i + 1..];
        match cursor {
          case Node(fields) =>
            if path[i] !in fields {
              return Absent;
            }
            cursor := fields[path[i]];
          case Text(s) =>
            return if Contains(s, path[i]) then Raises else Absent;
          case List(items) =>
            return if Text(path[i]) in items then Raises else Absent;
          case _ =>
            return Raises;
        }
      }
      l := Found(cursor);
    }

    /** A new process: every setting is constructed again, in order, with the environment as it was. */
    method Restart(settings: seq<Setting>, persistent: bool) returns (raised: bool)
      modifies this`registry
      ensures raised <==> Restarted(Config(data, settings), persistent).None?
      ensures !raised ==> registry == Restarted(Config(data, settings), persistent).value
    {
      registry := [];
      for i := 0 to |settings|
        invariant |registry| == i
        invariant forall j :: 0 <= j < i ==> !Get(data, settings[j].path).Raises?
        invariant forall j :: 0 <= j < i ==> registry[j] == FirstSetting(data, settings[j], persistent)
      {
        var s := settings[i];
        raised := Register(s.path, s.pinned, s.default, persistent);
        if raised {
          return;
        }
      }
      raised := false;
    }

    method SetAttribute(i: nat, value: Json) returns (raised: bool)
      modifies this
      ensures Value() == Write(old(Value()), i, value)
      ensures registry == if i < |old(registry)| && !old(registry)[i].pinned
                          then old(registry)[i := old(registry)[i].(value := value)] else old(registry)
      ensures raised <==>
        i >= |registry| || (!registry[i].pinned && Put(old(data), registry[i].path, value).None?)
      ensures raised ==> data == old(data)
      ensures !raised && !registry[i].pinned ==> Get(data, registry[i].path) == Found(value)
      ensures !raised && registry[i].pinned ==> data == old(data)
      ensures forall p: seq<string> :: i < |registry| && Apart(registry[i].path, p) ==> Get(data, p) == Get(old(data), p)
    {
      if i >= |registry| {
        return true;
      }
      if registry[i].pinned {
        return false;
      }
      registry := registry[i := registry[i].(value := value)];
      var saved := Save(registry[i].path, value);
      if saved {
        GetAfterPut(old(data), registry[i].path, value);
        forall p: seq<string> | Apart(registry[i].path, p) ensures Get(data, p) == Get(old(data), p) {
          PutLeavesOthers(old(data), registry[i].path, value, p);
        }
      }
      raised := !saved;
    }

    /** The walk of save: down through the levels, making missing ones, and the value at the last key. */
    method Save(path: Path, value: Json) returns (done: bool)
      modifies this`data
      ensures done <==> Put(old(data), path, value).Some?
      ensures data == Or(Put(old(data), path, value), old(data))
    {
      var cursor := data;
      var levels: seq<Fields> := [];
      for i := 0 to |path| - 1
        invariant |levels| == i
        invariant Put(data, path, value) == Wrapped(levels, path[..i], Put(cursor, path[i..], value))
      {
        if !cursor.Node? {
          WrappedNone(levels, path[..i]);
          return false;
        }
        assert path[i..][1..] == path[i + 1..] && path[..i + 1] == path[..i] + [path[i]];
        levels := levels + [cursor.fields];
        cursor := if path[i] in cursor.fields then cursor.fields[path[i]] else Node(map[]);
        assert levels[..i] == levels[..|levels| - 1];
      }
      var last := |path| - 1;
      if !cursor.Node? {
        WrappedNone(levels, path[..last]);
        return false;
      }
      // A value has no references, so the levels are put back one in the other from below.
      var built := Node(cursor.fields[path[last] := value]);
      assert path[..|levels|] == path[..last];
      while levels != []
        invariant |levels| <= last
        invariant Put(data, path, value) == Wrapped(levels, path[..|levels|], Some(built))
        decreases |levels|
      {
        var n := |levels| - 1;
        assert path[..n + 1][..n] == path[..n];
        built := Node(levels[n][path[n] := built]);
        levels := levels[..n];
      }
      data := built;
      done := true;
    }

    /** save_config: false when some update raised, the later settings then keeping their values. */
    method SaveConfig(config: Json) returns (ok: bool)
      modifies this
      ensures Value() == Import(old(Value()), config)
      ensures ok <==> AllReadable(old(registry), config)
    {
      data := config;
      ghost var before := registry;
      var i := 0;
      while i < |registry|
        invariant 0 <= i <= |registry| == |before| && data == config
        invariant AllReadable(before[..i], config)
        invariant forall j :: 0 <= j < |before| ==> registry[j] == if j < i then Updated(before[j], config) else before[j]
      {
        assert before[..i + 1] == before[..i] + [before[i]];
        if !registry[i].pinned {
          var found := Read(registry[i].path);
          if found.Raises? {
            StoppedAt(before, registry, config, i);
            return false;
          }
          if found.Found? && !found.value.Null? {
            registry := registry[i := registry[i].(value := found.value)];
          }
        }
        i := i + 1;
      }
      assert before[..i] == before;
      StoppedAt(before, registry, config, i);
      ok := true;
    }
  }
}
