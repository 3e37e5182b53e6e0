/** The paths a retained view reads, and the topic filters it asks a node for. */
module ViewScope {
  import opened Options
  import opened Topics

  datatype Result<+T> = Ok(value: T) | ValueError

  /** Prefixes in whole levels, and how many levels below one are read. The
      whole node is the one empty prefix. */
  datatype Scope = Scope(prefixes: seq<string>, depth: Option<int>) {

    predicate WholeNode() { prefixes == [""] }

    /** As it is made: some prefixes, which name a path in plain levels, or the
        whole node. */
    ghost predicate Valid() {
      && prefixes != []
      && (depth.Some? ==> depth.value >= 1)
      && (WholeNode() || forall i :: 0 <= i < |prefixes| ==> prefixes[i] != "" && Named(prefixes[i]))
    }

    /** What is in scope, level by level. */
    ghost predicate Covers(levels: seq<string>) {
      exists i :: 0 <= i < |prefixes| && Under(prefixes[i], depth, levels)
    }
  }

  /** Every level of a path is there, and is no wildcard. */
  predicate Named(path: string) {
    forall i :: 0 <= i < |Split(path)| ==> Split(path)[i] !in {"", "+", "#"}
  }

  /** The levels of a prefix; the whole node has none. */
  function Levels(prefix: string): seq<string> {
    if prefix == "" then [] else Split(prefix)
  }

  /** At a prefix or at most so many levels below it. */
  predicate Under(prefix: string, depth: Option<int>, levels: seq<string>) {
    Levels(prefix) <= levels && (depth.Some? ==> |levels| - |Levels(prefix)| <= depth.value)
  }

  // ----------------------------------------------------------- making one

  function Stripped(s: string): string {
    if s != "" && s[0] == '/' then Stripped(s[1..])
    else if s != "" && s[|s| - 1] == '/' then Stripped(s[..|s| - 1])
    else s
  }

  ghost predicate AllSlashes(s: string) { forall i :: 0 <= i < |s| ==> s[i] == '/' }

  /** A string without its outer slashes. */
  ghost predicate Trims(s: string, r: string) {
    && (r != "" ==> r[0] != '/' && r[|r| - 1] != '/')
    && exists a, b :: AllSlashes(a) && AllSlashes(b) && s == a + r + b
  }

  lemma {:induction false} StrippedTrims(s: string)
    ensures Trims(s, Stripped(s))
  {
    if s != "" && s[0] == '/' {
      StrippedTrims(s[1..]);
      var a, b :| AllSlashes(a) && AllSlashes(b) && s[1..] == a + Stripped(s) + b;
      assert AllSlashes("/" + a) && s == ("/" + a) + Stripped(s) + b;
    } else if s != "" && s[|s| - 1] == '/' {
      StrippedTrims(s[..|s| - 1]);
      var a, b :| AllSlashes(a) && AllSlashes(b) && s[..|s| - 1] == a + Stripped(s) + b;
      assert AllSlashes(b + "/") && s == a + Stripped(s) + (b + "/");
    } else {
      assert AllSlashes("") && s == "" + s + "";
    }
  }

  /** `ViewScope._path`. */
  function CheckedPath(prefix: string): (r: Result<string>)
    ensures r.Ok? ==> r.value != "" && Named(r.value) && Trims(prefix, r.value)
    ensures r.Ok? <==> Stripped(prefix) != "" && Named(Stripped(prefix))
  {
    StrippedTrims(prefix);
    var path := Stripped(prefix);
    if path == "" || !Named(path) then ValueError else Ok(path)
  }

  /** Each path of the prefixes once, unless one of them is refused. */
  method CheckedPaths(prefixes: seq<string>) returns (r: Result<seq<string>>)
    ensures r.Ok? <==> forall i :: 0 <= i < |prefixes| ==> CheckedPath(prefixes[i]).Ok?
    ensures r.Ok? ==> forall p :: p in r.value <==> exists i :: 0 <= i < |prefixes| && CheckedPath(prefixes[i]) == Ok(p)
    ensures r.Ok? ==> forall i, j :: 0 <= i < j < |r.value| ==> r.value[i] != r.value[j]
    ensures r.Ok? ==> (r.value == [] <==> prefixes == [])
  {
    var paths: seq<string> := [];
    for k := 0 to |prefixes|
      invariant forall i :: 0 <= i < k ==> CheckedPath(prefixes[i]).Ok?
      invariant forall p :: p in paths ==> exists i :: 0 <= i < k && CheckedPath(prefixes[i]) == Ok(p)
      invariant forall i :: 0 <= i < k ==> CheckedPath(prefixes[i]).value in paths
      invariant k == 0 <==> paths == []
      invariant forall i, j :: 0 <= i < j < |paths| ==> paths[i] != paths[j]
    {
      var path := CheckedPath(prefixes[k]);
      if path.ValueError? { return ValueError; }
      if path.value !in paths { paths := paths + [path.value]; }
    }
    return Ok(paths);
  }

  /** A scope of prefixes: none, an unnamed one or a bad depth is refused. */
  method Make(prefixes: seq<string>, depth: Option<int>) returns (r: Result<Scope>)
    ensures r.Ok? <==>
      && prefixes != [] && (depth.Some? ==> depth.value >= 1)
      && forall i :: 0 <= i < |prefixes| ==> CheckedPath(prefixes[i]).Ok?
    ensures r.Ok? ==> r.value.Valid() && !r.value.WholeNode() && r.value.depth == depth
    ensures r.Ok? ==> forall p ::
      (p in r.value.prefixes <==> exists i :: 0 <= i < |prefixes| && CheckedPath(prefixes[i]) == Ok(p))
    ensures r.Ok? ==> forall p :: p in r.value.prefixes ==> exists i :: 0 <= i < |prefixes| && Trims(prefixes[i], p)
    ensures r.Ok? ==> forall i, j :: 0 <= i < j < |r.value.prefixes| ==> r.value.prefixes[i] != r.value.prefixes[j]
  {
    var checked := CheckedPaths(prefixes);
    if checked.ValueError? { return ValueError; }
    var paths := checked.value;
    if paths == [] || (depth.Some? && depth.value < 1) { return ValueError; }
    forall i | 0 <= i < |paths| ensures paths[i] != "" && Named(paths[i]) { assert paths[i] in paths; }
    assert paths[0] != "";
    return Ok(Scope(paths, depth));
  }

  function WholeNode(depth: Option<int>): (r: Result<Scope>)
    ensures r.Ok? ==> r.value.Valid() && r.value.WholeNode() && r.value.depth == depth
    ensures r.Ok? <==> (depth.Some? ==> depth.value >= 1)
  {
    if depth.Some? && depth.value < 1 then ValueError else Ok(Scope([""], depth))
  }

  // ------------------------------------------------------------ contains

  function Slashes(s: string): nat {
    if s == "" then 0 else (if s[0] == '/' then 1 else 0) + Slashes(s[1..])
  }

  lemma {:induction false} SlashesSeparate(s: string)
    ensures |Split(s)| == Slashes(s) + 1
  {
    if s != "" { SlashesSeparate(s[1..]); }
  }

  /** What lies below a prefix, if a path lies at or below it. */
  function Below(prefix: string, path: string): Option<string> {
    if prefix == "" then Some(path)
    else if path == prefix then Some("")
    else if prefix + "/" <= path then Some(path[|prefix| + 1..])
    else None
  }

  /** The levels a path has: the empty one has none, or one empty level. */
  predicate PathLevels(path: string, levels: seq<string>) {
    levels == Split(path) || (path == "" && levels == [])
  }

  /** The path of a topic, as the view puts it together, has the topic's levels. */
  lemma TopicPath(levels: seq<string>)
    requires forall i :: 0 <= i < |levels| ==> Plain(levels[i])
    ensures PathLevels(Join(levels), levels)
  {
    if levels != [] { SplitJoin(levels); }
  }

  /** Comparing strings is comparing levels. */
  lemma BelowIsUnder(prefix: string, depth: Option<int>, path: string, levels: seq<string>)
    requires PathLevels(path, levels) && (depth.Some? ==> depth.value >= 1)
    ensures Under(prefix, depth, levels) <==>
      var below := Below(prefix, path);
      below.Some? && (depth.Some? ==> (if below.value == "" then 0 else Slashes(below.value) + 1) <= depth.value)
  {
    var below := Below(prefix, path);
    if prefix == "" {
      SlashesSeparate(path);
    } else if path == prefix {
    } else if below.Some? {
      assert path == prefix + "/" + below.value;
      SplitJoins(prefix, below.value);
      SlashesSeparate(below.value);
    } else if Split(prefix) <= levels {
      NotUnder(prefix, path, levels);
    }
  }

  lemma NotUnder(prefix: string, path: string, levels: seq<string>)
    requires PathLevels(path, levels) && prefix != "" && Split(prefix) <= levels
    ensures path == prefix || prefix + "/" <= path
  {
    var rest := levels[|Split(prefix)|..];
    assert levels == Split(prefix) + rest;
    JoinSplit(prefix);
    JoinSplit(path);
    if rest == [] {
      assert levels == Split(prefix);
    } else {
      SplitJoin(rest);
      SplitJoins(prefix, Join(rest));
      JoinSplit(prefix + "/" + Join(rest));
      StartsWith(prefix + "/", Join(rest));
    }
  }

  lemma StartsWith(a: string, b: string)
    ensures a <= a + b
  {
  }

  /** `ViewScope.contains`. */
  method Contains(scope: Scope, path: string, ghost levels: seq<string>) returns (b: bool)
    requires scope.Valid() && PathLevels(path, levels)
    ensures b <==> scope.Covers(levels)
  {
    for k := 0 to |scope.prefixes|
      invariant forall i :: 0 <= i < k ==> !Under(scope.prefixes[i], scope.depth, levels)
    {
      BelowIsUnder(scope.prefixes[k], scope.depth, path, levels);
      var below := Below(scope.prefixes[k], path);
      if below.Some? {
        var deep := if below.value == "" then 0 else Slashes(below.value) + 1;
        if scope.depth.None? || deep <= scope.depth.value { return true; }
      }
    }
    return false;
  }

  // ------------------------------------------------------- topic filters

  const MAX_TOPIC_FILTERS := 1000

  /** `/+` so many times. */
  function Pluses(n: nat): string {
    if n == 0 then "" else Pluses(n - 1) + "/+"
  }

  /** `<root>/v1/<contract>/+`, and the prefix behind it. */
  function Base(root: string, contract: string, prefix: string): string {
    root + "/v1/" + contract + "/+" + (if prefix == "" then "" else "/" + prefix)
  }

  /** The filters of one contract and prefix. */
  function FiltersOf(base: string, depth: Option<int>): seq<string>
    requires depth.Some? ==> depth.value >= 1
  {
    if depth.None? then [base + "/#"] else seq(depth.value + 1, n requires 0 <= n => base + Pluses(n))
  }

  /** The filters of one contract, prefix by prefix. */
  function ContractFilters(root: string, contract: string, prefixes: seq<string>, depth: Option<int>): seq<string>
    requires depth.Some? ==> depth.value >= 1
  {
    if prefixes == [] then []
    else
      ContractFilters(root, contract, prefixes[..|prefixes| - 1], depth)
      + FiltersOf(Base(root, contract, prefixes[|prefixes| - 1]), depth)
  }

  function AllFilters(root: string, contracts: seq<string>, prefixes: seq<string>, depth: Option<int>): seq<string>
    requires depth.Some? ==> depth.value >= 1
  {
    if contracts == [] then []
    else
      AllFilters(root, contracts[..|contracts| - 1], prefixes, depth)
      + ContractFilters(root, contracts[|contracts| - 1], prefixes, depth)
  }

  method FiltersForContract(scope: Scope, root: string, contract: string) returns (filters: seq<string>)
    requires scope.Valid()
    ensures filters == ContractFilters(root, contract, scope.prefixes, scope.depth)
  {
    filters := [];
    for j := 0 to |scope.prefixes|
      invariant filters == ContractFilters(root, contract, scope.prefixes[..j], scope.depth)
    {
      assert scope.prefixes[..j + 1][..j] == scope.prefixes[..j];
      filters := filters + FiltersOf(Base(root, contract, scope.prefixes[j]), scope.depth);
    }
    assert scope.prefixes[..|scope.prefixes|] == scope.prefixes;
  }

  /** `ViewScope.topic_filters`: none when the contract filter is the whole
      scope, an error when the node would refuse so many. */
  method TopicFilters(scope: Scope, root: string, contracts: seq<string>) returns (r: Result<Option<seq<string>>>)
    requires scope.Valid()
    ensures var filters := AllFilters(root, contracts, scope.prefixes, scope.depth);
      r == if scope.WholeNode() && scope.depth.None? then Ok(None)
           else if |filters| > MAX_TOPIC_FILTERS then ValueError
           else Ok(Some(filters))
  {
    if scope.WholeNode() && scope.depth.None? { return Ok(None); }
    var filters: seq<string> := [];
    for i := 0 to |contracts|
      invariant filters == AllFilters(root, contracts[..i], scope.prefixes, scope.depth)
    {
      var more := FiltersForContract(scope, root, contracts[i]);
      assert contracts[..i + 1][..i] == contracts[..i];
      filters := filters + more;
    }
    assert contracts[..|contracts|] == contracts;
    return if |filters| > MAX_TOPIC_FILTERS then ValueError else Ok(Some(filters));
  }

  ghost predicate AnyMatches(filters: seq<string>, topic: seq<string>) {
    exists f :: f in filters && Matches(Split(f), topic)
  }

  lemma AnyOfBoth(a: seq<string>, b: seq<string>, topic: seq<string>)
    ensures AnyMatches(a + b, topic) <==> AnyMatches(a, topic) || AnyMatches(b, topic)
  {
    if AnyMatches(a, topic) {
      var f :| f in a && Matches(Split(f), topic);
      assert f in a + b;
    }
    if AnyMatches(b, topic) {
      var f :| f in b && Matches(Split(f), topic);
      assert f in a + b;
    }
  }

  ghost predicate PrefixMatches(root: string, contract: string, prefix: string, depth: Option<int>, topic: seq<string>)
    requires depth.Some? ==> depth.value >= 1
  {
    AnyMatches(FiltersOf(Base(root, contract, prefix), depth), topic)
  }

  lemma {:induction false} ContractMatches(root: string, contract: string, prefixes: seq<string>, depth: Option<int>,
                                           topic: seq<string>)
    requires depth.Some? ==> depth.value >= 1
    ensures AnyMatches(ContractFilters(root, contract, prefixes, depth), topic)
      <==> exists i :: 0 <= i < |prefixes| && PrefixMatches(root, contract, prefixes[i], depth, topic)
  {
    if prefixes != [] {
      var front, last := prefixes[..|prefixes| - 1], prefixes[|prefixes| - 1];
      ContractMatches(root, contract, front, depth, topic);
      AnyOfBoth(ContractFilters(root, contract, front, depth), FiltersOf(Base(root, contract, last), depth), topic);
      assert forall i :: 0 <= i < |front| ==> front[i] == prefixes[i];
      assert PrefixMatches(root, contract, prefixes[|prefixes| - 1], depth, topic)
        <==> AnyMatches(FiltersOf(Base(root, contract, last), depth), topic);
    }
  }

  lemma {:induction false} AllMatch(root: string, contracts: seq<string>, prefixes: seq<string>, depth: Option<int>,
                                    topic: seq<string>)
    requires depth.Some? ==> depth.value >= 1
    ensures AnyMatches(AllFilters(root, contracts, prefixes, depth), topic)
      <==> exists i :: 0 <= i < |contracts| && AnyMatches(ContractFilters(root, contracts[i], prefixes, depth), topic)
  {
    if contracts != [] {
      var front, last := contracts[..|contracts| - 1], contracts[|contracts| - 1];
      AllMatch(root, front, prefixes, depth, topic);
      AnyOfBoth(AllFilters(root, front, prefixes, depth), ContractFilters(root, last, prefixes, depth), topic);
      assert forall i :: 0 <= i < |front| ==> front[i] == contracts[i];
      assert contracts[|contracts| - 1] == last;
    }
  }

  // ------------------------------------------------------------ agreement

  lemma {:induction false} PlusesSplit(base: string, n: nat)
    ensures Split(base + Pluses(n)) == Split(base) + seq(n, _ => "+")
  {
    if n == 0 {
      assert base + "" == base;
    } else {
      PlusesSplit(base, n - 1);
      assert base + Pluses(n) == (base + Pluses(n - 1)) + "/" + "+";
      SplitJoins(base + Pluses(n - 1), "+");
      PlainSplit("+");
    }
  }

  /** The levels of a base: the root's, the version, the contract, any node,
      the prefix's. */
  lemma BaseSplit(root: string, contract: string, prefix: string)
    requires Plain(root) && Plain(contract)
    ensures Split(Base(root, contract, prefix)) == [root, "v1", contract, "+"] + Levels(prefix)
  {
    PlainSplit(root);
    PlainSplit("v1");
    PlainSplit(contract);
    PlainSplit("+");
    var a := root + "/" + "v1";
    SplitJoins(root, "v1");
    SplitJoins(a, contract);
    SplitJoins(a + "/" + contract, "+");
    var base := a + "/" + contract + "/" + "+";
    assert base == root + "/v1/" + contract + "/+";
    if prefix == "" {
      assert Base(root, contract, prefix) == base;
    } else {
      SplitJoins(base, prefix);
      assert Base(root, contract, prefix) == base + "/" + prefix;
    }
  }

  /** A filter of one contract and prefix matches a topic below the root
      exactly when it is one of the contract, at a path under the prefix. */
  lemma FiltersOfMatch(root: string, contract: string, prefix: string, depth: Option<int>, topic: seq<string>)
    requires Plain(root) && Plain(contract) && Literal([root, contract]) && (prefix == "" || Named(prefix))
    requires depth.Some? ==> depth.value >= 1
    ensures PrefixMatches(root, contract, prefix, depth, topic)
      <==> |topic| >= 4 && topic[..3] == [root, "v1", contract] && Under(prefix, depth, topic[4..])
  {
    var base := Base(root, contract, prefix);
    BaseSplit(root, contract, prefix);
    if depth.None? {
      SplitJoins(base, "#");
      PlainSplit("#");
      assert base + "/#" == base + "/" + "#";
      BaseMatches(root, contract, prefix, ["#"], topic);
      assert FiltersOf(base, depth) == [base + "/#"];
      assert base + "/#" in FiltersOf(base, depth);
    } else {
      var filters := FiltersOf(base, depth);
      forall n: nat | n <= depth.value
        ensures filters[n] in filters
        ensures Matches(Split(filters[n]), topic)
          <==> (|topic| >= 4 && topic[..3] == [root, "v1", contract] && Levels(prefix) <= topic[4..]
                && |topic[4..]| - |Levels(prefix)| == n)
      {
        PlusesSplit(base, n);
        BaseMatches(root, contract, prefix, seq(n, _ => "+"), topic);
        if |topic| >= 4 && Levels(prefix) <= topic[4..] { PlusMatches(n, topic[4..][|Levels(prefix)|..]); }
      }
      if |topic| >= 4 && topic[..3] == [root, "v1", contract] && Under(prefix, depth, topic[4..]) {
        assert filters[|topic[4..]| - |Levels(prefix)|] in filters;
      }
    }
  }

  lemma BaseMatches(root: string, contract: string, prefix: string, rest: seq<string>, topic: seq<string>)
    requires Literal([root, contract]) && (prefix == "" || Named(prefix))
    ensures Matches([root, "v1", contract, "+"] + Levels(prefix) + rest, topic)
      <==> (|topic| >= 4 && topic[..3] == [root, "v1", contract] && Levels(prefix) <= topic[4..]
            && Matches(rest, topic[4..][|Levels(prefix)|..]))
  {
    var fixed := [root, "v1", contract];
    assert [root, contract][0] == root && [root, contract][1] == contract;
    assert [root, "v1", contract, "+"] + Levels(prefix) + rest == fixed + (["+"] + (Levels(prefix) + rest));
    LiteralMatches(fixed, ["+"] + (Levels(prefix) + rest), topic);
    if fixed <= topic {
      assert topic[..3] == fixed;
      if |topic| >= 4 {
        assert (["+"] + (Levels(prefix) + rest))[1..] == Levels(prefix) + rest;
        assert topic[3..][1..] == topic[4..];
        LiteralMatches(Levels(prefix), rest, topic[4..]);
      }
    }
  }

  lemma ContractAgrees(scope: Scope, root: string, contract: string, topic: seq<string>)
    requires scope.Valid() && Plain(root) && Literal([root]) && Plain(contract) && Literal([contract])
    requires |topic| >= 4 && topic[0] == root && topic[1] == "v1"
    ensures AnyMatches(ContractFilters(root, contract, scope.prefixes, scope.depth), topic)
      <==> topic[2] == contract && scope.Covers(topic[4..])
  {
    ContractMatches(root, contract, scope.prefixes, scope.depth, topic);
    assert [root][0] == root && [contract][0] == contract;
    assert topic[..3] == [root, "v1", contract] <==> topic[2] == contract;
    forall j | 0 <= j < |scope.prefixes|
      ensures PrefixMatches(root, contract, scope.prefixes[j], scope.depth, topic)
        <==> topic[2] == contract && Under(scope.prefixes[j], scope.depth, topic[4..])
    {
      FiltersOfMatch(root, contract, scope.prefixes[j], scope.depth, topic);
    }
  }

  /** A view keeps a record of one of its contracts exactly when a filter it
      asked the node for matches the record's topic. */
  lemma FiltersAgree(scope: Scope, root: string, contracts: seq<string>, topic: seq<string>)
    requires scope.Valid() && Plain(root) && Literal([root])
    requires forall c :: c in contracts ==> Plain(c) && Literal([c])
    requires |topic| >= 4 && topic[0] == root && topic[1] == "v1" && topic[2] in contracts
    ensures scope.Covers(topic[4..]) <==> AnyMatches(AllFilters(root, contracts, scope.prefixes, scope.depth), topic)
  {
    AllMatch(root, contracts, scope.prefixes, scope.depth, topic);
    forall i | 0 <= i < |contracts|
      ensures AnyMatches(ContractFilters(root, contracts[i], scope.prefixes, scope.depth), topic)
        <==> topic[2] == contracts[i] && scope.Covers(topic[4..])
    {
      ContractAgrees(scope, root, contracts[i], topic);
    }
  }

  /** The view's own test of a record: one of its contracts, at a path in
      scope. Below the root it passes exactly when a filter the view asked the
      node for matches the record's topic. */
  method Keeps(scope: Scope, root: string, contracts: seq<string>, topic: string) returns (b: bool)
    requires scope.Valid() && Plain(root) && Literal([root])
    requires forall c :: c in contracts ==> Plain(c) && Literal([c])
    ensures var levels := Split(topic);
      && (b <==> |levels| >= 4 && levels[2] in contracts && scope.Covers(levels[4..]))
      && (|levels| >= 4 && levels[0] == root && levels[1] == "v1" && levels[2] in contracts ==>
            (b <==> AnyMatches(AllFilters(root, contracts, scope.prefixes, scope.depth), levels)))
  {
    var levels := Split(topic);
    if |levels| < 4 || levels[2] !in contracts { return false; }
    TopicPath(levels[4..]);
    b := Contains(scope, Join(levels[4..]), levels[4..]);
    if levels[0] == root && levels[1] == "v1" { FiltersAgree(scope, root, contracts, levels); }
  }
}
