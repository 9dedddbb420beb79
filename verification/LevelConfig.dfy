/** Typed configurations: one value per level, kept once for all levels that share the global one. */
module LevelConfig {
  import opened Vectors
  import opened Wrappers

  datatype Level = Global | Trace | Debug | Fatal | Error | Warning | Verbose | Info | Unknown

  datatype Setting<T> = Setting(level: Level, value: T)

  /** The value of a level, or else the global one; without either the caller gets a default value. */
  function Lookup<T>(confMap: map<Level, T>, level: Level): Option<T> {
    if level in confMap then Some(confMap[level])
    else if Global in confMap then Some(confMap[Global])
    else None
  }

  function Set<T(==)>(confMap: map<Level, T>, level: Level, value: T, includeGlobalLevel: bool): map<Level, T> {
    if confMap == map[] && includeGlobalLevel then map[Global := value]
    else if Global in confMap && confMap[Global] == value then confMap
    else confMap[level := value]
  }

  datatype ConfigurationType =
    | Enabled | ToFile | ToStandardOutput | Filename | Format | MillisecondsWidth | PerformanceTracking
    | MaxLogFileSize | LogFlushThreshold | UnknownType

  datatype Configuration = Configuration(level: Level, configurationType: ConfigurationType, value: string)

  /** Some types are only ever configured globally. */
  function LevelFor(conf: Configuration): Level {
    if conf.configurationType == MillisecondsWidth || conf.configurationType == PerformanceTracking then Global
    else conf.level
  }

  /** File names are left to a loop of their own. */
  predicate Handled(configurationType: ConfigurationType) {
    configurationType != Filename && configurationType != UnknownType
  }

  /** The settings of one type, in order; `parse` makes a value of the text for a level. */
  function SettingsOf<T>(configurations: seq<Configuration>, which: ConfigurationType,
                         parse: (ConfigurationType, Level, string) -> T): seq<Setting<T>>
  {
    if configurations == [] then []
    else
      var front, conf := configurations[..|configurations| - 1], configurations[|configurations| - 1];
      SettingsOf(front, which, parse) +
        if conf.configurationType == which then [Setting(LevelFor(conf), parse(which, conf.level, conf.value))] else []
  }

  /** One map of values for each type of configuration. */
  class TypedConfigurations<T(==)> {
    var confMaps: map<ConfigurationType, map<Level, T>>

    constructor ()
      ensures forall which :: ConfMap(which) == map[]
    {
      confMaps := map[];
    }

    function ConfMap(which: ConfigurationType): map<Level, T>
      reads this
    {
      if which in confMaps then confMaps[which] else map[]
    }

    method SetValue(level: Level, value: T, which: ConfigurationType, includeGlobalLevel: bool)
      modifies this
      ensures ConfMap(which) == Set(old(ConfMap(which)), level, value, includeGlobalLevel)
      ensures forall other :: other != which ==> ConfMap(other) == old(ConfMap(other))
    {
      var confMap := ConfMap(which);
      if confMap == map[] && includeGlobalLevel {
        confMaps := confMaps[which := map[Global := value]];
        return;
      }
      if Global in confMap && confMap[Global] == value { return; }
      if level !in confMap {
        confMaps := confMaps[which := confMap + map[level := value]];
      } else {
        confMaps := confMaps[which := confMap[level := value]];
      }
    }

    method UnsafeGetConfigByVal(level: Level, which: ConfigurationType, default: T) returns (value: T)
      ensures value == match Lookup(ConfMap(which), level) case Some(v) => v case None => default
    {
      var confMap := ConfMap(which);
      if level !in confMap {
        if Global !in confMap { return default; }
        return confMap[Global];
      }
      return confMap[level];
    }

    /** The maps hold the first `k` configurations, each type its own. */
    ghost predicate Holds(configurations: seq<Configuration>, parse: (ConfigurationType, Level, string) -> T, k: nat)
      requires k <= |configurations|
      reads this
    {
      forall which ::
        ConfMap(which) == if Handled(which) then Applied(SettingsOf(configurations[..k], which, parse)) else map[]
    }

    /** Each map holds the settings of its type, applied in order, whatever stands between them. */
    method Build(configurations: seq<Configuration>, parse: (ConfigurationType, Level, string) -> T)
      requires forall which :: ConfMap(which) == map[]
      modifies this
      ensures ConfMap(Filename) == map[] && ConfMap(UnknownType) == map[]
      ensures forall which :: which != Filename && which != UnknownType ==>
                ConfMap(which) == Applied(SettingsOf(configurations, which, parse))
    {
      var i := 0;
      while i < |configurations|
        invariant 0 <= i <= |configurations| && Holds(configurations, parse, i)
      {
        Configure(configurations, parse, i);
        i := i + 1;
      }
      assert configurations[..i] == configurations;
    }

    method Configure(configurations: seq<Configuration>, parse: (ConfigurationType, Level, string) -> T, k: nat)
      requires k < |configurations| && Holds(configurations, parse, k)
      modifies this
      ensures Holds(configurations, parse, k + 1)
    {
      var conf := configurations[k];
      SettingsNext(configurations, k, parse);
      if Handled(conf.configurationType) {
        var value := parse(conf.configurationType, conf.level, conf.value);
        SetValue(LevelFor(conf), value, conf.configurationType, true);
      }
    }
  }

  predicate IsSetting<T(==)>(setting: Setting<T>, conf: Configuration, which: ConfigurationType,
                             parse: (ConfigurationType, Level, string) -> T)
  {
    && setting.value == parse(which, conf.level, conf.value)
    && setting.level == if which == MillisecondsWidth || which == PerformanceTracking then Global else conf.level
  }

  /** The places of the configurations of a type. */
  ghost predicate PlacesOf(places: seq<nat>, configurations: seq<Configuration>, which: ConfigurationType) {
    && Ascending(places, |configurations|)
    && forall i :: 0 <= i < |configurations| ==> (i in places <==> configurations[i].configurationType == which)
  }

  ghost predicate SettingsAt<T>(places: seq<nat>, configurations: seq<Configuration>, settings: seq<Setting<T>>,
                                which: ConfigurationType, parse: (ConfigurationType, Level, string) -> T)
  {
    && |settings| == |places|
    && forall j :: 0 <= j < |places| ==>
         places[j] < |configurations| && IsSetting(settings[j], configurations[places[j]], which, parse)
  }

  /** The settings of a type are its configurations, at ascending places in the list; of two types all are
      global, whatever level they name. */
  lemma {:induction false} SettingsInOrder<T>(configurations: seq<Configuration>, which: ConfigurationType,
                                              parse: (ConfigurationType, Level, string) -> T)
    returns (places: seq<nat>)
    ensures PlacesOf(places, configurations, which)
    ensures SettingsAt(places, configurations, SettingsOf(configurations, which, parse), which, parse)
  {
    places := [];
    if configurations != [] {
      var n := |configurations| - 1;
      var front, conf := configurations[..n], configurations[n];
      var before := SettingsInOrder(front, which, parse);
      assert configurations == front + [conf];
      places := if conf.configurationType == which then before + [n] else before;
      PlacesNext(before, front, conf, which);
      SettingsNextAt(before, front, conf, which, parse);
    }
  }

  lemma PlacesNext(places: seq<nat>, front: seq<Configuration>, conf: Configuration, which: ConfigurationType)
    requires PlacesOf(places, front, which)
    ensures PlacesOf(if conf.configurationType == which then places + [|front|] else places, front + [conf], which)
  {
    var all := front + [conf];
    forall i | 0 <= i < |front| ensures i in places <==> all[i].configurationType == which {
      assert all[i] == front[i];
    }
  }

  lemma SettingsNextAt<T>(places: seq<nat>, front: seq<Configuration>, conf: Configuration,
                          which: ConfigurationType, parse: (ConfigurationType, Level, string) -> T)
    requires SettingsAt(places, front, SettingsOf(front, which, parse), which, parse)
    ensures SettingsAt(if conf.configurationType == which then places + [|front|] else places, front + [conf],
                       SettingsOf(front + [conf], which, parse), which, parse)
  {
    var all, settings := front + [conf], SettingsOf(front, which, parse);
    assert all[..|front|] == front;
    forall j | 0 <= j < |places| ensures IsSetting(settings[j], all[places[j]], which, parse) {
      assert all[places[j]] == front[places[j]];
    }
  }

  /** Of those two types every level reads the last configuration in the list. */
  lemma AlwaysGlobal<T>(configurations: seq<Configuration>, which: ConfigurationType,
                        parse: (ConfigurationType, Level, string) -> T, level: Level, last: nat)
    requires which in {MillisecondsWidth, PerformanceTracking}
    requires last < |configurations| && configurations[last].configurationType == which
    requires forall i :: last < i < |configurations| ==> configurations[i].configurationType != which
    ensures Lookup(Applied(SettingsOf(configurations, which, parse)), level) ==
              Some(parse(which, configurations[last].level, configurations[last].value))
  {
    var settings := SettingsOf(configurations, which, parse);
    var places := SettingsInOrder(configurations, which, parse);
    var j :| 0 <= j < |places| && places[j] == last;
    var end := places[|places| - 1];
    assert end in places && configurations[end].configurationType == which && end <= last;
    assert j == |places| - 1;
    forall i | 0 < i < |settings| ensures !Own(settings, level, i) {
      assert settings[i].level == Global;
    }
    GlobalIsLast(settings);
    LevelReads(settings, level);
  }

  /** Of any other type a level reads what `LevelReads` says of the configurations of that type. */
  lemma Reads<T>(configurations: seq<Configuration>, which: ConfigurationType,
                 parse: (ConfigurationType, Level, string) -> T, level: Level)
    returns (places: seq<nat>, settings: seq<Setting<T>>)
    requires which !in {MillisecondsWidth, PerformanceTracking}
    ensures PlacesOf(places, configurations, which) && |settings| == |places|
    ensures forall j :: 0 <= j < |places| ==>
              var conf := configurations[places[j]];
              settings[j] == Setting(conf.level, parse(which, conf.level, conf.value))
    ensures Lookup(Applied(SettingsOf(configurations, which, parse)), level) == Reading(settings, level)
  {
    settings := SettingsOf(configurations, which, parse);
    places := SettingsInOrder(configurations, which, parse);
    LevelReads(settings, level);
  }

  // What a level reads after any list of settings

  /** The global value after the first `n` settings: of the last global one, or else of the very first. */
  function GlobalAt<T>(settings: seq<Setting<T>>, n: nat): T
    requires 0 < n <= |settings|
  {
    if n == 1 || settings[n - 1].level == Global then settings[n - 1].value else GlobalAt(settings, n - 1)
  }

  /** The `i`-th setting is one of the level's own: not the first, and unlike the global value of the time. */
  predicate Own<T(==)>(settings: seq<Setting<T>>, level: Level, i: nat)
    requires 0 < i < |settings|
  {
    level != Global && settings[i].level == level && settings[i].value != GlobalAt(settings, i)
  }

  /** The last setting of its own that a level has among the first `n`, zero if none. */
  function LastOwn<T(==)>(settings: seq<Setting<T>>, level: Level, n: nat): (i: nat)
    requires n <= |settings|
    ensures i < n || i == 0
    ensures 0 < i ==> Own(settings, level, i)
    ensures forall k :: i < k < n ==> !Own(settings, level, k)
  {
    if n <= 1 then 0 else if Own(settings, level, n - 1) then n - 1 else LastOwn(settings, level, n - 1)
  }

  function Reading<T(==)>(settings: seq<Setting<T>>, level: Level): Option<T> {
    if settings == [] then None
    else
      var i := LastOwn(settings, level, |settings|);
      Some(if i > 0 then settings[i].value else GlobalAt(settings, |settings|))
  }

  lemma {:induction false} AppliedIs<T>(settings: seq<Setting<T>>, level: Level, n: nat)
    requires 0 < n <= |settings| && level != Global
    ensures var m, i := Applied(settings[..n]), LastOwn(settings, level, n);
            && Global in m && m[Global] == GlobalAt(settings, n)
            && (level in m <==> i > 0) && (i > 0 ==> m[level] == settings[i].value)
  {
    var front := settings[..n];
    assert front[..n - 1] == settings[..n - 1] && front[n - 1] == settings[n - 1];
    if n == 1 {
      assert Applied(settings[..0]) == map[];
    } else {
      AppliedIs(settings, level, n - 1);
    }
  }

  /** For any list of settings: a level reads the last one of its own, or else the global value. */
  lemma LevelReads<T>(settings: seq<Setting<T>>, level: Level)
    ensures Lookup(Applied(settings), level) == Reading(settings, level)
  {
    if settings != [] {
      assert settings[..|settings|] == settings;
      AppliedIs(settings, if level == Global then Trace else level, |settings|);
    }
  }

  lemma GlobalIsLast<T>(settings: seq<Setting<T>>)
    requires settings != [] && forall i :: 0 <= i < |settings| ==> settings[i].level == Global
    ensures GlobalAt(settings, |settings|) == settings[|settings| - 1].value
  {
  }

  lemma SettingsNext<T>(configurations: seq<Configuration>, i: nat, parse: (ConfigurationType, Level, string) -> T)
    requires i < |configurations|
    ensures forall which ::
              var front, conf := SettingsOf(configurations[..i], which, parse), configurations[i];
              Applied(SettingsOf(configurations[..i + 1], which, parse)) ==
                if conf.configurationType == which
                then Set(Applied(front), LevelFor(conf), parse(which, conf.level, conf.value), true)
                else Applied(front)
  {
    var conf := configurations[i];
    assert configurations[..i + 1][..i] == configurations[..i] && configurations[..i + 1][i] == conf;
    forall which
      ensures Applied(SettingsOf(configurations[..i + 1], which, parse)) ==
                if conf.configurationType == which
                then Set(Applied(SettingsOf(configurations[..i], which, parse)), LevelFor(conf),
                         parse(which, conf.level, conf.value), true)
                else Applied(SettingsOf(configurations[..i], which, parse))
    {
      var front, all := SettingsOf(configurations[..i], which, parse),
          SettingsOf(configurations[..i + 1], which, parse);
      if conf.configurationType == which {
        var last := Setting(LevelFor(conf), parse(which, conf.level, conf.value));
        assert all == front + [last] && all[..|front|] == front && all[|front|] == last;
      } else {
        assert all == front;
      }
    }
  }

  function Applied<T(==)>(settings: seq<Setting<T>>): map<Level, T> {
    if settings == [] then map[]
    else
      var last := settings[|settings| - 1];
      Set(Applied(settings[..|settings| - 1]), last.level, last.value, true)
  }

  /** A level reads as it was just set, unless the value equals the global one while the level holds
      another of its own: then the call returns before it gets to the level. */
  lemma SetThenGet<T>(confMap: map<Level, T>, level: Level, value: T, includeGlobalLevel: bool)
    ensures Lookup(Set(confMap, level, value, includeGlobalLevel), level) == Some(value) <==>
              !(level in confMap && confMap[level] != value && Global in confMap && confMap[Global] == value)
  {
  }

  /** Setting a level moves another one only if that one has no value of its own and the global value moves. */
  lemma SetKeepsOthers<T>(confMap: map<Level, T>, level: Level, value: T, includeGlobalLevel: bool, other: Level)
    requires other != level
    ensures var after := Set(confMap, level, value, includeGlobalLevel);
            Lookup(after, other) == Lookup(confMap, other) <==>
              other in confMap || Lookup(after, Global) == Lookup(confMap, Global)
  {
  }

  /** The global value moves exactly if the level is the global one or the first value counts for it, and
      the value is another. */
  lemma GlobalMoves<T>(confMap: map<Level, T>, level: Level, value: T, includeGlobalLevel: bool)
    ensures var after := Set(confMap, level, value, includeGlobalLevel);
            Lookup(after, Global) ==
              if level == Global || (confMap == map[] && includeGlobalLevel) then Some(value)
              else Lookup(confMap, Global)
  {
  }

  ghost predicate DistinctLevels<T>(settings: seq<Setting<T>>) {
    forall i, j :: 0 <= i < j < |settings| ==> settings[i].level != settings[j].level
  }

  /** A global setting, if there is one, says what the first setting says. */
  ghost predicate GlobalAgreesWithFirst<T>(settings: seq<Setting<T>>) {
    forall i :: 0 <= i < |settings| && settings[i].level == Global ==> settings[i].value == settings[0].value
  }

  ghost predicate ReadsBack<T>(settings: seq<Setting<T>>) {
    forall i :: 0 <= i < |settings| ==> Lookup(Applied(settings), settings[i].level) == Some(settings[i].value)
  }

  lemma {:induction false} UnlistedStaysOut<T>(settings: seq<Setting<T>>, level: Level)
    requires level != Global && forall i :: 0 <= i < |settings| ==> settings[i].level != level
    ensures level !in Applied(settings)
  {
    if settings != [] { UnlistedStaysOut(settings[..|settings| - 1], level); }
  }

  lemma {:induction false} Compressed<T>(settings: seq<Setting<T>>)
    requires DistinctLevels(settings) && GlobalAgreesWithFirst(settings) && settings != []
    ensures Global in Applied(settings) && Applied(settings)[Global] == settings[0].value
    ensures ReadsBack(settings)
    ensures settings[0].level != Global ==> settings[0].level !in Applied(settings)
  {
    var n := |settings| - 1;
    var front, last := settings[..n], settings[n];
    if n > 0 {
      Compressed(front);
      if last.level != Global { UnlistedStaysOut(front, last.level); }
      forall i | 0 <= i < |settings| ensures Lookup(Applied(settings), settings[i].level) == Some(settings[i].value) {
        if i < n {
          assert front[i] == settings[i];
          SetKeepsOthers(Applied(front), last.level, last.value, true, settings[i].level);
        } else {
          SetThenGet(Applied(front), last.level, last.value, true);
        }
      }
    } else {
      assert Applied(front) == map[];
    }
  }

  /** A global setting that comes late and differs takes the first level's value away. */
  lemma {:induction false} LateGlobal<T>(settings: seq<Setting<T>>, g: nat)
    requires DistinctLevels(settings) && 0 < g < |settings| && settings[g].level == Global
    requires settings[g].value != settings[0].value
    ensures Global in Applied(settings) && Applied(settings)[Global] == settings[g].value
    ensures settings[0].level !in Applied(settings)
  {
    var n := |settings| - 1;
    var front := settings[..n];
    if g == n {
      forall i | 0 <= i < n ensures front[i].level != Global {
        assert settings[i].level != settings[g].level;
      }
      Compressed(front);
    } else {
      LateGlobal(front, g);
    }
  }

  /** For distinct levels, every level that was set reads as it was set exactly if the global setting,
      wherever it stands, agrees with the first one: so in particular if it comes first or not at all. */
  lemma CompressionIsFaithful<T>(settings: seq<Setting<T>>)
    requires DistinctLevels(settings)
    ensures ReadsBack(settings) <==> GlobalAgreesWithFirst(settings)
  {
    if settings != [] && GlobalAgreesWithFirst(settings) {
      Compressed(settings);
    } else if settings != [] {
      var g :| 0 <= g < |settings| && settings[g].level == Global && settings[g].value != settings[0].value;
      LateGlobal(settings, g);
      assert Lookup(Applied(settings), settings[0].level) != Some(settings[0].value);
    }
  }

  /** A level set before a different global value reads as the global one. */
  lemma LateGlobalMovesLevel()
    ensures var settings := [Setting(Info, 1), Setting(Global, 2)];
            Lookup(Applied(settings), Info) == Some(2) && !ReadsBack(settings)
  {
    var settings := [Setting(Info, 1), Setting(Global, 2)];
    assert settings[..1] == [Setting(Info, 1)] && settings[..1][..0] == [];
    assert Applied(settings[..1][..0]) == map[] && Applied(settings[..1]) == map[Global := 1];
    assert Applied(settings) == map[Global := 2];
    assert settings[0] == Setting(Info, 1);
  }

  /** A level of its own cannot be set back to the global value. */
  lemma GlobalValueDoesNotStick()
    ensures Lookup(Set(map[Global := 1, Info := 2], Info, 1, true), Info) == Some(2)
  {
    var confMap := map[Global := 1, Info := 2];
    assert Global in confMap;
  }
}
