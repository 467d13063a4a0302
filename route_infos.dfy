/** Per-route sitemap metadata: change frequency and priority, looked up by
    the first configured route-name prefix that matches, validated, and
    falling back to the configured defaults. */
module RouteInfos {
  import opened Framework

  /** The seven change-frequency tokens of the sitemap protocol. */
  const ValidFrequencies: seq<string> := ["always", "hourly", "daily", "weekly", "monthly", "yearly", "never"]

  const DefaultPriority: real := 0.5
  const DefaultFrequency: string := "daily"

  /** A configured priority: a numeric value (already converted to a number),
      or anything `is_numeric` rejects. */
  datatype PriorityValue = Numeric(r: real) | NonNumeric

  /** The four settings read from configuration; the tables keep their
      configured order. */
  datatype InfoConfig = InfoConfig(
    defaultPriority: real,
    defaultFrequency: string,
    priorities: seq<(string, PriorityValue)>,
    frequencies: seq<(string, string)>)

  /** The settings used when the configuration has none. */
  function DefaultInfoConfig(): (c: InfoConfig)
    ensures c.defaultFrequency in ValidFrequencies && 0.0 < c.defaultPriority < 1.0
    ensures c.priorities == [] && c.frequencies == []
  {
    InfoConfig(DefaultPriority, DefaultFrequency, [], [])
  }

  /** `i` is the first entry of `table` whose key is a prefix of `routeName`
      (`strpos($routeName, $key) === 0`). */
  ghost predicate FirstMatchAt<V>(table: seq<(string, V)>, routeName: string, i: nat)
  {
    i < |table| && table[i].0 <= routeName &&
    forall j :: 0 <= j < i ==> !(table[j].0 <= routeName)
  }

  ghost predicate NoMatch<V>(table: seq<(string, V)>, routeName: string)
  {
    forall j :: 0 <= j < |table| ==> !(table[j].0 <= routeName)
  }

  /** The first-match search of `getRouteFrequency` over a frequency table. */
  function FrequencyIn(table: seq<(string, string)>, default: string, routeName: string): (r: string)
    ensures r in ValidFrequencies || r == default
    ensures forall i: nat :: FirstMatchAt(table, routeName, i) ==>
      r == if table[i].1 in ValidFrequencies then table[i].1 else default
    ensures NoMatch(table, routeName) ==> r == default
  {
    if table == [] then default
    else if table[0].0 <= routeName then
      (if table[0].1 in ValidFrequencies then table[0].1 else default)
    else
      var r := FrequencyIn(table[1..], default, routeName);
      assert forall i: nat :: FirstMatchAt(table, routeName, i) ==> i > 0 && FirstMatchAt(table[1..], routeName, i - 1);
      r
  }

  /** The first-match search of `getRoutePriority` over a priority table. */
  function PriorityIn(table: seq<(string, PriorityValue)>, default: real, routeName: string): (r: real)
    ensures r == default || 0.0 < r < 1.0
    ensures forall i: nat :: FirstMatchAt(table, routeName, i) ==>
      r == if table[i].1.Numeric? && 0.0 < table[i].1.r < 1.0 then table[i].1.r else default
    ensures NoMatch(table, routeName) ==> r == default
  {
    if table == [] then default
    else if table[0].0 <= routeName then
      var prio := if table[0].1.Numeric? then table[0].1.r else default;
      if 0.0 < prio < 1.0 then prio else default
    else
      var r := PriorityIn(table[1..], default, routeName);
      assert forall i: nat :: FirstMatchAt(table, routeName, i) ==> i > 0 && FirstMatchAt(table[1..], routeName, i - 1);
      r
  }

  /** `getRouteFrequency`: always one of the seven tokens or the default. */
  function RouteFrequency(cfg: InfoConfig, routeName: string): (r: string)
    ensures r in ValidFrequencies || r == cfg.defaultFrequency
    ensures forall i: nat :: FirstMatchAt(cfg.frequencies, routeName, i) ==>
      r == if cfg.frequencies[i].1 in ValidFrequencies then cfg.frequencies[i].1 else cfg.defaultFrequency
    ensures NoMatch(cfg.frequencies, routeName) ==> r == cfg.defaultFrequency
  {
    FrequencyIn(cfg.frequencies, cfg.defaultFrequency, routeName)
  }

  /** `getRoutePriority`: either the default, or a configured value strictly between 0 and 1. */
  function RoutePriority(cfg: InfoConfig, routeName: string): (r: real)
    ensures r == cfg.defaultPriority || 0.0 < r < 1.0
    ensures forall i: nat :: FirstMatchAt(cfg.priorities, routeName, i) ==>
      r == if cfg.priorities[i].1.Numeric? && 0.0 < cfg.priorities[i].1.r < 1.0 then cfg.priorities[i].1.r else cfg.defaultPriority
    ensures NoMatch(cfg.priorities, routeName) ==> r == cfg.defaultPriority
  {
    PriorityIn(cfg.priorities, cfg.defaultPriority, routeName)
  }

  /** Frequency entries after the first match are never consulted:
      replacing them changes nothing. */
  lemma LaterFrequenciesIgnored(cfg: InfoConfig, f: nat, routeName: string, more: seq<(string, string)>)
    requires FirstMatchAt(cfg.frequencies, routeName, f)
    ensures RouteFrequency(cfg.(frequencies := cfg.frequencies[..f + 1] + more), routeName)
         == RouteFrequency(cfg, routeName)
  {
    var fs := cfg.frequencies[..f + 1] + more;
    assert fs[f] == cfg.frequencies[f] && FirstMatchAt(fs, routeName, f);
  }

  /** Priority entries after the first match are never consulted: replacing
      them changes nothing. */
  lemma LaterPrioritiesIgnored(cfg: InfoConfig, p: nat, routeName: string, more: seq<(string, PriorityValue)>)
    requires FirstMatchAt(cfg.priorities, routeName, p)
    ensures RoutePriority(cfg.(priorities := cfg.priorities[..p + 1] + more), routeName)
         == RoutePriority(cfg, routeName)
  {
    var ps := cfg.priorities[..p + 1] + more;
    assert ps[p] == cfg.priorities[p] && FirstMatchAt(ps, routeName, p);
  }

  /** First match wins, not the most specific: with "blog." listed before
      "blog.show", the route "blog.show" gets the frequency of "blog.". */
  lemma FirstMatchNotMostSpecific()
    ensures RouteFrequency(InfoConfig(0.5, "daily", [], [("blog.", "weekly"), ("blog.show", "monthly")]), "blog.show") == "weekly"
  {
    var t := [("blog.", "weekly"), ("blog.show", "monthly")];
    assert FirstMatchAt(t, "blog.show", 0);
  }

  /** An out-of-range priority falls back to the default. */
  lemma OutOfRangePriorityFallsBack()
    ensures RoutePriority(InfoConfig(0.5, "daily", [("admin.", Numeric(2.0))], []), "admin.index") == 0.5
  {
    assert FirstMatchAt([("admin.", Numeric(2.0))], "admin.index", 0);
  }

  /** The bounds 0 and 1 themselves are rejected, wherever the first match stands. */
  lemma PriorityBoundsExcluded(cfg: InfoConfig, routeName: string, i: nat)
    requires FirstMatchAt(cfg.priorities, routeName, i)
    requires cfg.priorities[i].1 == Numeric(0.0) || cfg.priorities[i].1 == Numeric(1.0)
    ensures RoutePriority(cfg, routeName) == cfg.defaultPriority
  {
  }
}
