/**
 * The level registry of level.go: a global pair of maps between ranks and
 * names plus the length of the longest registered name, the built-in
 * levels registered at initialisation, the name-based string and JSON
 * forms of a level, and the choice of a theme colour by severity.
 *
 * The registry's state is the value `LevelTable`; the Go globals that
 * `AddLevel` mutates are the fields of the class `Registry`.
 */
module Levels {
  import opened Wrappers
  import opened Text

  /** Go's `type Level uint`. */
  type Level = nat

  const NOTSET: Level := 0
  const DEBUG: Level := 10
  const INFO: Level := 20
  const WARNING: Level := 30
  const ERROR: Level := 40
  const CRITICAL: Level := 50

  datatype LevelTable = LevelTable(
    level2Name: map<Level, string>,
    name2Level: map<string, Level>,
    levelNameMaxLength: nat)

  const EmptyTable: LevelTable := LevelTable(map[], map[], 0)

  /** `level2Name` and `name2Level` are mutual inverses. */
  predicate Inverse(t: LevelTable) {
    && (forall l :: l in t.level2Name ==>
          t.level2Name[l] in t.name2Level && t.name2Level[t.level2Name[l]] == l)
    && (forall n :: n in t.name2Level ==>
          t.name2Level[n] in t.level2Name && t.level2Name[t.name2Level[n]] == n)
  }

  /** `levelNameMaxLength` is the length of the longest registered name, or 0. */
  predicate MaxLengthExact(t: LevelTable) {
    && (forall n :: n in t.name2Level ==> |n| <= t.levelNameMaxLength)
    && (t.levelNameMaxLength == 0 || exists n :: n in t.name2Level && |n| == t.levelNameMaxLength)
  }

  predicate ValidTable(t: LevelTable) {
    Inverse(t) && MaxLengthExact(t)
  }

  datatype AddError = NameExists(name: string) | RankExists(rank: Level)

  datatype AddOutcome = AddOutcome(table: LevelTable, level: Level, err: Option<AddError>)

  /** What `AddLevel(name, rank)` returns and leaves in the registry. */
  function Register(t: LevelTable, name: string, rank: Level): (r: AddOutcome)
    ensures r.err.None? <==> name !in t.name2Level && rank !in t.level2Name
  {
    if name in t.name2Level then AddOutcome(t, NOTSET, Some(NameExists(name)))
    else if rank in t.level2Name then AddOutcome(t, NOTSET, Some(RankExists(rank)))
    else
      var maxLen := if |name| > t.levelNameMaxLength then |name| else t.levelNameMaxLength;
      AddOutcome(LevelTable(t.level2Name[rank := name], t.name2Level[name := rank], maxLen), rank, None)
  }

  /** A duplicate name is reported first, then a duplicate rank; either way
      AddLevel returns NOTSET and the registry is left as it was. */
  lemma RegisterRejectsDuplicates(t: LevelTable, name: string, rank: Level)
    ensures name in t.name2Level ==>
              Register(t, name, rank) == AddOutcome(t, NOTSET, Some(NameExists(name)))
    ensures name !in t.name2Level && rank in t.level2Name ==>
              Register(t, name, rank) == AddOutcome(t, NOTSET, Some(RankExists(rank)))
  {
  }

  /** A successful registration returns the rank and adds exactly one entry to
      each map, keeping every earlier entry. */
  lemma RegisterAddsOneEntry(t: LevelTable, name: string, rank: Level)
    requires name !in t.name2Level && rank !in t.level2Name
    ensures var r := Register(t, name, rank);
      && r.err == None && r.level == rank
      && r.table.level2Name.Keys == t.level2Name.Keys + {rank}
      && r.table.name2Level.Keys == t.name2Level.Keys + {name}
      && |r.table.level2Name| == |t.level2Name| + 1
      && |r.table.name2Level| == |t.name2Level| + 1
      && r.table.level2Name[rank] == name && r.table.name2Level[name] == rank
      && (forall l :: l in t.level2Name ==> r.table.level2Name[l] == t.level2Name[l])
      && (forall n :: n in t.name2Level ==> r.table.name2Level[n] == t.name2Level[n])
  {
    var r := Register(t, name, rank);
    assert r.table.level2Name == t.level2Name[rank := name];
    assert r.table.name2Level == t.name2Level[name := rank];
    FreshKey(t.level2Name, rank, name);
    FreshKey(t.name2Level, name, rank);
  }

  /** Storing under a new key adds that one key and keeps every other entry. */
  lemma FreshKey<K, V>(m: map<K, V>, k: K, v: V)
    requires k !in m
    ensures m[k := v].Keys == m.Keys + {k}
    ensures |m[k := v]| == |m| + 1
    ensures forall j :: j in m ==> m[k := v][j] == m[j]
  {
    assert m[k := v].Keys == m.Keys + {k};
  }

  /** Every registration keeps the two maps mutual inverses and
      `levelNameMaxLength` the length of the longest name. */
  lemma RegisterKeepsValid(t: LevelTable, name: string, rank: Level)
    requires ValidTable(t)
    ensures ValidTable(Register(t, name, rank).table)
  {
    if name !in t.name2Level && rank !in t.level2Name {
      var t' := Register(t, name, rank).table;
      assert Inverse(t');
      assert forall n :: n in t'.name2Level ==> |n| <= t'.levelNameMaxLength;
      if |name| > t.levelNameMaxLength {
        assert name in t'.name2Level;
      } else if t.levelNameMaxLength != 0 {
        var n :| n in t.name2Level && |n| == t.levelNameMaxLength;
        assert n in t'.name2Level;
      }
    }
  }

  /** The registry after `init` has registered the six built-in levels into `t`. */
  function InitTable(t: LevelTable): LevelTable {
    var t1 := Register(t, "NOTSET", NOTSET).table;
    var t2 := Register(t1, "DEBUG", DEBUG).table;
    var t3 := Register(t2, "INFO", INFO).table;
    var t4 := Register(t3, "WARNING", WARNING).table;
    var t5 := Register(t4, "ERROR", ERROR).table;
    Register(t5, "CRITICAL", CRITICAL).table
  }

  /** `getLevelName`: the registered name, or "" for an unregistered level. */
  function GetLevelName(t: LevelTable, l: Level): (name: string)
    ensures l !in t.level2Name ==> name == ""
    ensures ValidTable(t) && l in t.level2Name ==>
              name in t.name2Level && t.name2Level[name] == l
  {
    if l in t.level2Name then t.level2Name[l] else ""
  }

  /** `getLevelFromName`: the registered level, or NOTSET for an unknown name. */
  function GetLevelFromName(t: LevelTable, name: string): (l: Level)
    ensures name !in t.name2Level ==> l == NOTSET
    ensures ValidTable(t) && name in t.name2Level ==>
              l in t.level2Name && t.level2Name[l] == name
  {
    if name in t.name2Level then t.name2Level[name] else NOTSET
  }

  /** After `init` on an empty registry the six built-ins are registered under
      their own names at 0, 10, ..., 50, and the longest name has 8 characters. */
  lemma BuiltinsRegistered()
    ensures var b := InitTable(EmptyTable);
      && ValidTable(b)
      && b.level2Name == map[NOTSET := "NOTSET", DEBUG := "DEBUG", INFO := "INFO",
                              WARNING := "WARNING", ERROR := "ERROR", CRITICAL := "CRITICAL"]
      && b.name2Level == map["NOTSET" := NOTSET, "DEBUG" := DEBUG, "INFO" := INFO,
                              "WARNING" := WARNING, "ERROR" := ERROR, "CRITICAL" := CRITICAL]
      && b.levelNameMaxLength == 8
  {
    var t1 := Register(EmptyTable, "NOTSET", NOTSET).table;
    assert t1 == LevelTable(map[0 := "NOTSET"], map["NOTSET" := 0], 6);
    var t2 := Register(t1, "DEBUG", DEBUG).table;
    assert t2 == LevelTable(t1.level2Name[10 := "DEBUG"], t1.name2Level["DEBUG" := 10], 6);
    var t3 := Register(t2, "INFO", INFO).table;
    assert t3 == LevelTable(t2.level2Name[20 := "INFO"], t2.name2Level["INFO" := 20], 6);
    var t4 := Register(t3, "WARNING", WARNING).table;
    assert t4 == LevelTable(t3.level2Name[30 := "WARNING"], t3.name2Level["WARNING" := 30], 7);
    var t5 := Register(t4, "ERROR", ERROR).table;
    assert t5 == LevelTable(t4.level2Name[40 := "ERROR"], t4.name2Level["ERROR" := 40], 7);
    var t6 := Register(t5, "CRITICAL", CRITICAL).table;
    assert t6 == LevelTable(t5.level2Name[50 := "CRITICAL"], t5.name2Level["CRITICAL" := 50], 8);
    assert ValidTable(EmptyTable);
    RegisterKeepsValid(EmptyTable, "NOTSET", NOTSET);
    RegisterKeepsValid(t1, "DEBUG", DEBUG);
    RegisterKeepsValid(t2, "INFO", INFO);
    RegisterKeepsValid(t3, "WARNING", WARNING);
    RegisterKeepsValid(t4, "ERROR", ERROR);
    RegisterKeepsValid(t5, "CRITICAL", CRITICAL);
  }

  /** Each of the six built-ins looks up in both directions; rank 2 and the
      name "CUSTOM" are unknown. */
  lemma BuiltinLookups()
    ensures var b := InitTable(EmptyTable);
      && BuiltinNamesBothWays(b)
      && GetLevelName(b, 2) == "" && GetLevelFromName(b, "CUSTOM") == NOTSET
  {
    BuiltinsRegistered();
    BuiltinMapLookups(InitTable(EmptyTable));
  }

  /** Every built-in rank gives its name and every built-in name its rank. */
  predicate BuiltinNamesBothWays(b: LevelTable) {
    && GetLevelName(b, NOTSET) == "NOTSET" && GetLevelFromName(b, "NOTSET") == NOTSET
    && GetLevelName(b, DEBUG) == "DEBUG" && GetLevelFromName(b, "DEBUG") == DEBUG
    && GetLevelName(b, INFO) == "INFO" && GetLevelFromName(b, "INFO") == INFO
    && GetLevelName(b, WARNING) == "WARNING" && GetLevelFromName(b, "WARNING") == WARNING
    && GetLevelName(b, ERROR) == "ERROR" && GetLevelFromName(b, "ERROR") == ERROR
    && GetLevelName(b, CRITICAL) == "CRITICAL" && GetLevelFromName(b, "CRITICAL") == CRITICAL
  }

  /** The lookups of `BuiltinLookups`, on any table holding the built-in maps. */
  lemma BuiltinMapLookups(b: LevelTable)
    requires b.level2Name == map[NOTSET := "NOTSET", DEBUG := "DEBUG", INFO := "INFO",
                                 WARNING := "WARNING", ERROR := "ERROR", CRITICAL := "CRITICAL"]
    requires b.name2Level == map["NOTSET" := NOTSET, "DEBUG" := DEBUG, "INFO" := INFO,
                                 "WARNING" := WARNING, "ERROR" := ERROR, "CRITICAL" := CRITICAL]
    ensures && BuiltinNamesBothWays(b)
            && GetLevelName(b, 2) == "" && GetLevelFromName(b, "CUSTOM") == NOTSET
  {
    assert b.name2Level.Keys == {"NOTSET", "DEBUG", "INFO", "WARNING", "ERROR", "CRITICAL"};
    assert "CUSTOM"[0] != "NOTSET"[0];
  }

  /** `Level.String`: the registered name, or "Level(N)" when it has no non-empty name. */
  function LevelString(t: LevelTable, l: Level): (s: string)
    ensures |s| > 0
  {
    var name := GetLevelName(t, l);
    if name == "" then "Level(" + Decimal(l) + ")" else name
  }

  /** Without a non-empty name the string reads back as the rank between
      "Level(" and ")". */
  lemma LevelStringUnregistered(t: LevelTable, l: Level)
    requires GetLevelName(t, l) == ""
    ensures var s := LevelString(t, l);
      && |s| >= 8 && s[..6] == "Level(" && s[|s| - 1] == ')'
      && (forall i :: 6 <= i < |s| - 1 ==> IsDigit(s[i]))
      && DigitsValue(s[6..|s| - 1]) == l
  {
    var s := LevelString(t, l);
    assert s[6..|s| - 1] == Decimal(l);
    DecimalValue(l);
  }

  /** With a non-empty name the string is that name, and it looks the level up again. */
  lemma LevelStringRegistered(t: LevelTable, l: Level)
    requires ValidTable(t) && l in t.level2Name && t.level2Name[l] != ""
    ensures LevelString(t, l) == t.level2Name[l]
    ensures GetLevelFromName(t, LevelString(t, l)) == l
  {
  }

  /** `MarshalJSON`: the quoted string form (it never fails). */
  function MarshalJSON(t: LevelTable, l: Level): (b: string)
    ensures |b| >= 2 && b[0] == '"' && b[|b| - 1] == '"'
  {
    Quote(LevelString(t, l))
  }

  datatype UnmarshalError = UnknownLevel(name: string)

  /** `UnmarshalJSON` into a target currently holding `target`: the new value of
      the target and the error. An unquoting failure leaves the name "". */
  function UnmarshalJSON(t: LevelTable, b: string, target: Level): (r: (Level, Option<UnmarshalError>))
    ensures var name := Unquote(b).GetOr("");
      && (r.1.None? <==> name in t.name2Level)
      && (r.1.None? ==> r.0 == t.name2Level[name])
      && (r.1.Some? ==> r.0 == target && r.1.value == UnknownLevel(name))
  {
    var levelStr := Unquote(b).GetOr("");
    if levelStr in t.name2Level then (t.name2Level[levelStr], None)
    else (target, Some(UnknownLevel(levelStr)))
  }

  /** Unmarshalling what MarshalJSON wrote gives back a level with a non-empty name. */
  lemma MarshalRoundTrip(t: LevelTable, l: Level, target: Level)
    requires ValidTable(t) && l in t.level2Name && t.level2Name[l] != ""
    ensures UnmarshalJSON(t, MarshalJSON(t, l), target) == (l, None)
  {
    QuoteRoundTrip(LevelString(t, l));
  }

  /** No level without a name round-trips through JSON. Its text "Level(N)"
      either is no registered name, and unmarshalling fails, or is the name of
      another rank registered under it, and unmarshalling silently gives that rank. */
  lemma UnregisteredNeverRoundTrips(t: LevelTable, l: Level, target: Level)
    requires ValidTable(t) && GetLevelName(t, l) == ""
    ensures UnmarshalJSON(t, MarshalJSON(t, l), target) != (l, None)
    ensures var s := LevelString(t, l);
      s in t.name2Level ==>
        t.name2Level[s] != l && UnmarshalJSON(t, MarshalJSON(t, l), target) == (t.name2Level[s], None)
  {
    QuoteRoundTrip(LevelString(t, l));
  }

  /** On the built-ins, `AddLevel("Level(5)", 7)` succeeds, and then the JSON
      form of the unregistered rank 5 unmarshals to 7 without an error. */
  lemma CollidingNameExample(target: Level)
    ensures var b := InitTable(EmptyTable);
      var r := Register(b, "Level(5)", 7);
      && r.err == None
      && GetLevelName(r.table, 5) == ""
      && MarshalJSON(r.table, 5) == Quote("Level(5)")
      && UnmarshalJSON(r.table, MarshalJSON(r.table, 5), target) == (7, None)
  {
    BuiltinsRegistered();
    CollidingName(InitTable(EmptyTable), target);
  }

  /** `CollidingNameExample` on any valid table holding the built-in maps. */
  lemma CollidingName(b: LevelTable, target: Level)
    requires b.level2Name == map[NOTSET := "NOTSET", DEBUG := "DEBUG", INFO := "INFO",
                                 WARNING := "WARNING", ERROR := "ERROR", CRITICAL := "CRITICAL"]
    requires b.name2Level == map["NOTSET" := NOTSET, "DEBUG" := DEBUG, "INFO" := INFO,
                                 "WARNING" := WARNING, "ERROR" := ERROR, "CRITICAL" := CRITICAL]
    ensures var r := Register(b, "Level(5)", 7);
      && r.err == None
      && GetLevelName(r.table, 5) == ""
      && MarshalJSON(r.table, 5) == Quote("Level(5)")
      && UnmarshalJSON(r.table, MarshalJSON(r.table, 5), target) == (7, None)
  {
    assert b.name2Level.Keys == {"NOTSET", "DEBUG", "INFO", "WARNING", "ERROR", "CRITICAL"};
    assert "Level(5)"[0] != "NOTSET"[0] && "Level(5)"[0] != "DEBUG"[0] && "Level(5)"[0] != "INFO"[0];
    assert "Level(5)"[0] != "WARNING"[0] && "Level(5)"[0] != "ERROR"[0] && "Level(5)"[0] != "CRITICAL"[0];
    var c := Register(b, "Level(5)", 7).table;
    assert c.name2Level == b.name2Level["Level(5)" := 7];
    assert 5 !in c.level2Name;
    LevelFiveText();
  }

  /** The text and JSON form of rank 5 without a name. */
  lemma LevelFiveText()
    ensures "Level(" + Decimal(5) + ")" == "Level(5)"
    ensures Unquote(Quote("Level(5)")) == Some("Level(5)")
  {
    assert Decimal(5) == "5";
    QuoteRoundTrip("Level(5)");
  }

  /** A level whose string form is not a registered name does not round-trip:
      unmarshalling fails and the target keeps its value. */
  lemma MarshalUnregisteredFails(t: LevelTable, l: Level, target: Level)
    requires LevelString(t, l) !in t.name2Level
    ensures UnmarshalJSON(t, MarshalJSON(t, l), target) == (target, Some(UnknownLevel(LevelString(t, l))))
  {
    QuoteRoundTrip(LevelString(t, l));
  }

  // ---------------------------------------------------------------------
  // Themes

  datatype Severity = DebugSeverity | InfoSeverity | WarningSeverity | ErrorSeverity | CriticalSeverity

  /** The `switch` of `theme.ForLevel`, default branch included. */
  function SeverityOf(level: Level): (s: Severity)
    ensures s == DebugSeverity <==> level < INFO
    ensures s == InfoSeverity <==> INFO <= level < WARNING
    ensures s == WarningSeverity <==> WARNING <= level < ERROR
    ensures s == ErrorSeverity <==> ERROR <= level < CRITICAL
    ensures s == CriticalSeverity <==> CRITICAL <= level
  {
    if level < INFO then DebugSeverity
    else if level >= INFO && level < WARNING then InfoSeverity
    else if level >= WARNING && level < ERROR then WarningSeverity
    else if level >= ERROR && level < CRITICAL then ErrorSeverity
    else if level >= CRITICAL then CriticalSeverity
    else InfoSeverity
  }

  function SeverityRank(s: Severity): nat {
    match s
    case DebugSeverity => 0
    case InfoSeverity => 1
    case WarningSeverity => 2
    case ErrorSeverity => 3
    case CriticalSeverity => 4
  }

  /** A higher level never gets a lower severity bucket. */
  lemma SeverityMonotone(l1: Level, l2: Level)
    requires l1 <= l2
    ensures SeverityRank(SeverityOf(l1)) <= SeverityRank(SeverityOf(l2))
  {
  }

  /** A theme's colour functions; their effect on text is left uninterpreted. */
  datatype Theme = Theme(
    time: string -> string,
    debug: string -> string,
    info: string -> string,
    warning: string -> string,
    error: string -> string,
    critical: string -> string)

  /** `theme.ForLevel`: the colour function of the level's severity bucket. */
  function ForLevel(theme: Theme, level: Level): string -> string {
    match SeverityOf(level)
    case DebugSeverity => theme.debug
    case InfoSeverity => theme.info
    case WarningSeverity => theme.warning
    case ErrorSeverity => theme.error
    case CriticalSeverity => theme.critical
  }

  /** `NoColorTheme`: every colour function returns its text unchanged. */
  function NoColorTheme(): Theme {
    var id := (s: string) => s;
    Theme(id, id, id, id, id, id)
  }

  // ---------------------------------------------------------------------
  // The global registry

  class Registry {
    var level2Name: map<Level, string>
    var name2Level: map<string, Level>
    var levelNameMaxLength: nat

    function Table(): LevelTable
      reads this
    {
      LevelTable(level2Name, name2Level, levelNameMaxLength)
    }

    /** Package initialisation: empty maps, then `init`. */
    constructor ()
      ensures Table() == InitTable(EmptyTable)
      ensures ValidTable(Table())
    {
      level2Name := map[];
      name2Level := map[];
      levelNameMaxLength := 0;
      new;
      Init();
      BuiltinsRegistered();
    }

    /** `init`: registers the six built-in levels. */
    method Init()
      modifies this
      ensures Table() == InitTable(old(Table()))
    {
      var _, _ := AddLevel("NOTSET", NOTSET);
      var _, _ := AddLevel("DEBUG", DEBUG);
      var _, _ := AddLevel("INFO", INFO);
      var _, _ := AddLevel("WARNING", WARNING);
      var _, _ := AddLevel("ERROR", ERROR);
      var _, _ := AddLevel("CRITICAL", CRITICAL);
    }

    /** `AddLevel`: registers `name` at `rank` unless either is taken. */
    method AddLevel(name: string, rank: Level) returns (l: Level, err: Option<AddError>)
      modifies this
      ensures AddOutcome(Table(), l, err) == Register(old(Table()), name, rank)
      ensures ValidTable(old(Table())) ==> ValidTable(Table())
    {
      if ValidTable(Table()) { RegisterKeepsValid(Table(), name, rank); }
      l := rank;
      if name in name2Level {
        return NOTSET, Some(NameExists(name));
      }
      if l in level2Name {
        return NOTSET, Some(RankExists(rank));
      }
      level2Name := level2Name[l := name];
      name2Level := name2Level[name := l];
      if |name| > levelNameMaxLength {
        levelNameMaxLength := |name|;
      }
      return l, None;
    }
  }
}
