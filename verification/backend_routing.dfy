/** The backend-routing HTTP filter: for an operation that has a routing rule
    it rewrites the request's `:path` either to a constant backend address
    (keeping the query string and adding the query parameters the path
    matcher extracted) or by putting an address prefix in front of the
    original path, and counts each kind of rewrite. */
module BackendRouting {
  import opened Strings
  import opened Http

  /** One configured rule: the operation it applies to, whether the backend
      address is constant (CONSTANT_ADDRESS) or gets the original path
      appended (APPEND_PATH_TO_ADDRESS), and the address used as prefix. */
  datatype Rule = Rule(operation: string, isConstAddress: bool, pathPrefix: string)

  /** The two entries of the stream's filter state that this filter reads,
      both written by the path-matcher filter earlier in the chain. */
  datatype FilterStateKey = Operation | QueryParams

  type FilterState = map<FilterStateKey, string>

  /** A filter-state string; an entry that is missing reads as empty. */
  function GetStringFilterState(fs: FilterState, key: FilterStateKey): (r: string)
    ensures key in fs ==> r == fs[key]
    ensures key !in fs ==> r == ""
  {
    if key in fs then fs[key] else ""
  }

  /** The lookup table the filter builds from its rules: each rule is stored
      under its operation, a later rule replacing an earlier one. */
  function RuleMap(rules: seq<Rule>): (m: map<string, Rule>)
    ensures forall op :: op in m ==> m[op].operation == op
  {
    if |rules| == 0 then map[]
    else
      var last := rules[|rules| - 1];
      RuleMap(rules[..|rules| - 1])[last.operation := last]
  }

  /** The table has an entry for exactly the operations the rules name. */
  lemma {:induction false} RuleMapKeys(rules: seq<Rule>)
    ensures RuleMap(rules).Keys == set r | r in rules :: r.operation
  {
    if |rules| > 0 {
      var init, last := rules[..|rules| - 1], rules[|rules| - 1];
      RuleMapKeys(init);
      assert rules == init + [last];
      assert (set r | r in rules :: r.operation)
          == (set r | r in init :: r.operation) + {last.operation};
    }
  }

  /** When several rules name one operation, the last of them is the one
      stored for it. */
  lemma {:induction false} RuleMapLastWins(rules: seq<Rule>, i: nat)
    requires i < |rules|
    requires forall j :: i < j < |rules| ==> rules[j].operation != rules[i].operation
    ensures rules[i].operation in RuleMap(rules)
    ensures RuleMap(rules)[rules[i].operation] == rules[i]
  {
    if i < |rules| - 1 {
      var init := rules[..|rules| - 1];
      assert init[i] == rules[i];
      RuleMapLastWins(init, i);
    }
  }

  /** The rule that applies to a request: none when the filter state names
      no operation, or names one that has no rule. */
  function ApplicableRule(m: map<string, Rule>, fs: FilterState): (r: Option<Rule>)
    ensures r.None? <==> GetStringFilterState(fs, Operation) == ""
                         || GetStringFilterState(fs, Operation) !in m
    ensures r.Some? ==> r.value in m.Values
    ensures r.Some? && (forall op :: op in m ==> m[op].operation == op)
            ==> r.value.operation == GetStringFilterState(fs, Operation)
  {
    var operation := GetStringFilterState(fs, Operation);
    if operation == "" then None
    else if operation !in m then None
    else Some(m[operation])
  }

  /** A filter built from `rules` routes a request exactly when its operation
      is non-empty and named by some rule. */
  lemma RoutedIffNamed(rules: seq<Rule>, fs: FilterState)
    ensures ApplicableRule(RuleMap(rules), fs).Some?
        <==> GetStringFilterState(fs, Operation) != ""
             && GetStringFilterState(fs, Operation) in set r | r in rules :: r.operation
  {
    RuleMapKeys(rules);
  }

  /** A routed request gets the last rule naming its operation; a rule for
      the empty operation never applies. */
  lemma RoutedByLastRule(rules: seq<Rule>, fs: FilterState, i: nat)
    requires i < |rules| && rules[i].operation == GetStringFilterState(fs, Operation)
    requires forall j :: i < j < |rules| ==> rules[j].operation != rules[i].operation
    ensures ApplicableRule(RuleMap(rules), fs)
         == if rules[i].operation == "" then None else Some(rules[i])
  {
    RuleMapLastWins(rules, i);
  }

  /** The query string of a constant-address rewrite: the original query
      with the extra parameters added as one more '&'-separated part, or the
      extra parameters alone when the original had no query. */
  function MergedQuery(original: Option<string>, extra: string): Option<string> {
    if extra == "" then original
    else match original
      case None => Some(extra)
      case Some(o) => Some(o + "&" + extra)
  }

  /** What CONSTANT_ADDRESS puts after the address: the original query
      string from its '?' on, followed by `&` and the extra parameters; or,
      when the original had no query, `?` and the extra parameters; the
      extra part only when there are extra parameters. */
  function QueryTail(oldPath: string, queryParams: string): (t: string)
    ensures t == JoinUrl("", MergedQuery(QueryString(oldPath), queryParams))
  {
    match FindFirst(oldPath, '?')
    case Some(pos) =>
      assert oldPath[pos..] == "?" + oldPath[pos + 1..];
      oldPath[pos..] + (if queryParams != "" then "&" + queryParams else "")
    case None =>
      if queryParams != "" then "?" + queryParams else ""
  }

  /** The rewritten request path for `rule`, given the original path and the
      query parameters taken from the filter state. */
  function NewPath(rule: Rule, oldPath: string, queryParams: string): (r: string)
    ensures |rule.pathPrefix| <= |r| && r[..|rule.pathPrefix|] == rule.pathPrefix
    ensures !rule.isConstAddress ==> r[|rule.pathPrefix|..] == oldPath
    ensures rule.isConstAddress ==>
      r == rule.pathPrefix + JoinUrl("", MergedQuery(QueryString(oldPath), queryParams))
  {
    if rule.isConstAddress then
      rule.pathPrefix + QueryTail(oldPath, queryParams)
    else
      rule.pathPrefix + oldPath
  }

  /** CONSTANT_ADDRESS: the path becomes the rule's address and the query
      string is the original one merged with the extra parameters. */
  lemma ConstantAddressRewrite(rule: Rule, oldPath: string, queryParams: string)
    requires rule.isConstAddress && '?' !in rule.pathPrefix
    ensures PathPart(NewPath(rule, oldPath, queryParams)) == rule.pathPrefix
    ensures QueryString(NewPath(rule, oldPath, queryParams))
         == MergedQuery(QueryString(oldPath), queryParams)
  {
    var query := MergedQuery(QueryString(oldPath), queryParams);
    match query {
      case None =>
      case Some(q) =>
        assert rule.pathPrefix + ("" + "?" + q) == rule.pathPrefix + "?" + q;
    }
    assert NewPath(rule, oldPath, queryParams) == JoinUrl(rule.pathPrefix, query);
    JoinSplit(rule.pathPrefix, query);
  }

  /** APPEND_PATH_TO_ADDRESS: the address goes in front of the original path
      and the query string is left as it was. */
  lemma AppendPathRewrite(rule: Rule, oldPath: string, queryParams: string)
    requires !rule.isConstAddress && '?' !in rule.pathPrefix
    ensures PathPart(NewPath(rule, oldPath, queryParams)) == rule.pathPrefix + PathPart(oldPath)
    ensures QueryString(NewPath(rule, oldPath, queryParams)) == QueryString(oldPath)
  {
    var path, query := PathPart(oldPath), QueryString(oldPath);
    var newBase := rule.pathPrefix + path;
    SplitJoin(oldPath);
    assert '?' !in newBase by {
      forall k | 0 <= k < |newBase| ensures newBase[k] != '?' {
        if k < |rule.pathPrefix| {
          assert newBase[k] == rule.pathPrefix[k];
        } else {
          assert newBase[k] == path[k - |rule.pathPrefix|];
        }
      }
    }
    match query {
      case None =>
      case Some(q) =>
        assert NewPath(rule, oldPath, queryParams) == rule.pathPrefix + (path + "?" + q);
    }
    assert NewPath(rule, oldPath, queryParams) == JoinUrl(newBase, query);
    JoinSplit(newBase, query);
  }

  /** An Envoy stats counter. */
  class Counter {
    var value: nat

    constructor ()
      ensures value == 0
    {
      value := 0;
    }

    method Inc()
      modifies this
      ensures value == old(value) + 1
    {
      value := value + 1;
    }
  }

  /** The filter's two counters, shared by every filter made from one
      configuration. */
  class Stats {
    const constantAddressRequest: Counter
    const appendPathToAddressRequest: Counter

    constructor ()
      ensures Valid()
      ensures fresh(constantAddressRequest) && fresh(appendPathToAddressRequest)
      ensures constantAddressRequest.value == 0 && appendPathToAddressRequest.value == 0
    {
      constantAddressRequest := new Counter();
      appendPathToAddressRequest := new Counter();
    }

    /** The two counters are distinct objects. */
    ghost predicate Valid() {
      constantAddressRequest != appendPathToAddressRequest
    }
  }

  /** The filter's configuration: its rules and its stats. */
  class FilterConfig {
    const rules: seq<Rule>
    const stats: Stats

    constructor (rules: seq<Rule>, stats: Stats)
      ensures this.rules == rules && this.stats == stats
    {
      this.rules := rules;
      this.stats := stats;
    }
  }

  /** One instance of the filter, created per stream. */
  class Filter {
    const config: FilterConfig
    var routingMap: map<string, Rule>

    /** The table is the one the configured rules define, and the counters
        are two distinct objects. */
    ghost predicate Valid()
      reads this
    {
      && routingMap == RuleMap(config.rules)
      && config.stats.Valid()
    }

    constructor (config: FilterConfig)
      requires config.stats.Valid()
      ensures this.config == config && Valid()
    {
      var m := map[];
      var i := 0;
      while i < |config.rules|
        invariant 0 <= i <= |config.rules|
        invariant m == RuleMap(config.rules[..i])
      {
        var rule := config.rules[i];
        assert config.rules[..i + 1][..i] == config.rules[..i];
        m := m[rule.operation := rule];
        i := i + 1;
      }
      assert config.rules[..i] == config.rules;
      this.config := config;
      routingMap := m;
    }

    /** Rewrites the `:path` header of a request whose operation has a rule
        and counts the rewrite; any other request passes through untouched.
        The header chain always continues. */
    method DecodeHeaders(headers: HeaderMap, endStream: bool, filterState: FilterState)
      returns (status: FilterHeadersStatus)
      requires Valid()
      requires ApplicableRule(routingMap, filterState).Some? ==> headers.Get(PathName).Some?
      modifies headers, config.stats.constantAddressRequest, config.stats.appendPathToAddressRequest
      ensures status == FilterHeadersStatus.Continue
      ensures ApplicableRule(routingMap, filterState).None? ==>
        && headers.entries == old(headers.entries)
        && config.stats.constantAddressRequest.value == old(config.stats.constantAddressRequest.value)
        && config.stats.appendPathToAddressRequest.value == old(config.stats.appendPathToAddressRequest.value)
      ensures ApplicableRule(routingMap, filterState).Some? ==>
        var rule := ApplicableRule(routingMap, filterState).value;
        var newPath := NewPath(rule, old(headers.Get(PathName)).value,
                               GetStringFilterState(filterState, QueryParams));
        && headers.entries == Without(old(headers.entries), PathName) + [Header(PathName, newPath)]
        && Count(headers.entries, PathName) == 1
        && headers.Get(PathName) == Some(newPath)
        && Without(headers.entries, PathName) == Without(old(headers.entries), PathName)
        && config.stats.constantAddressRequest.value
           == old(config.stats.constantAddressRequest.value) + (if rule.isConstAddress then 1 else 0)
        && config.stats.appendPathToAddressRequest.value
           == old(config.stats.appendPathToAddressRequest.value) + (if rule.isConstAddress then 0 else 1)
    {
      var operation := GetStringFilterState(filterState, Operation);
      if operation == "" {
        return FilterHeadersStatus.Continue;
      }
      if operation !in routingMap {
        return FilterHeadersStatus.Continue;
      }
      var rule := routingMap[operation];
      var oldPath := headers.Get(PathName).value;
      var newPath := NewPath(rule, oldPath, GetStringFilterState(filterState, QueryParams));
      if rule.isConstAddress {
        config.stats.constantAddressRequest.Inc();
      } else {
        config.stats.appendPathToAddressRequest.Inc();
      }
      ReplaceLeavesOneEntry(headers.entries, PathName, newPath);
      headers.Remove(PathName);
      headers.AddCopy(PathName, newPath);
      status := FilterHeadersStatus.Continue;
    }

    /** Body chunks pass through. */
    method DecodeData(data: seq<bv8>, endStream: bool) returns (status: FilterDataStatus)
      ensures status == FilterDataStatus.Continue
    {
      status := FilterDataStatus.Continue;
    }

    /** Trailers pass through. */
    method DecodeTrailers(trailers: HeaderMap) returns (status: FilterTrailersStatus)
      ensures status == FilterTrailersStatus.Continue
    {
      status := FilterTrailersStatus.Continue;
    }
  }

  /** A client built only on the contracts above: a filter made from a fresh
      one-rule configuration rewrites a request for that rule's operation,
      keeps its other headers and counts the rewrite once. */
  method RewriteScenario(rule: Rule, oldPath: string, others: seq<Header>, fs: FilterState)
    requires rule.operation == GetStringFilterState(fs, Operation) != ""
    requires forall h :: h in others ==> h.name != PathName
  {
    var stats := new Stats();
    var config := new FilterConfig([rule], stats);
    var filter := new Filter(config);
    var pathEntry := [Header(PathName, oldPath)];
    var headers := new HeaderMap(others + pathEntry);
    assert ApplicableRule(filter.routingMap, fs) == Some(rule) by {
      RoutedByLastRule(config.rules, fs, 0);
    }
    assert headers.Get(PathName) == Some(oldPath) by {
      FirstValueSkip(others, pathEntry, PathName);
    }
    assert Without(headers.entries, PathName) == others by {
      Absent(others, PathName);
      WithoutConcat(others, pathEntry, PathName);
    }
    var status := filter.DecodeHeaders(headers, false, fs);
    assert status == FilterHeadersStatus.Continue;
    assert headers.entries
        == others + [Header(PathName, NewPath(rule, oldPath, GetStringFilterState(fs, QueryParams)))];
    assert stats.constantAddressRequest.value == if rule.isConstAddress then 1 else 0;
    assert stats.appendPathToAddressRequest.value == if rule.isConstAddress then 0 else 1;
  }
}
