/** The per-domain caps on tabs the extension manages: which rules a request is checked against, and
    the check itself. Hosts are lower case; "" stands for a URL without one. */
module TabLimits {
  import opened Prelude
  import Domains

  datatype Rule = Rule(domain: string, max: int)

  /** The domain a rule is compared by; a rule without a positive cap is never compared. */
  function DomainOf(r: Rule): string {
    if r.max > 0 then Domains.Normal(r.domain) else ""
  }

  function DomainsOf(rules: seq<Rule>): seq<string> {
    seq(|rules|, i requires 0 <= i < |rules| => DomainOf(rules[i]))
  }

  /** Rule `i` is the most specific one for the host: the longest that matches, the first of equals. */
  ghost predicate Governs(rules: seq<Rule>, host: string, i: nat) {
    Domains.Governs(DomainsOf(rules), host, i)
  }

  predicate RuleMatches(rules: seq<Rule>, host: string, i: nat)
    requires i < |rules|
  {
    Domains.Matches(host, DomainOf(rules[i]))
  }

  /** A host has at most one most specific rule, which matches it and has a positive cap. */
  lemma OneRuleGoverns(rules: seq<Rule>, host: string, i: nat, j: nat)
    requires Governs(rules, host, i) && Governs(rules, host, j)
    ensures i == j && i < |rules| && RuleMatches(rules, host, i) && rules[i].max > 0
  {
    var ds := DomainsOf(rules);
    assert Domains.Matches(host, ds[j]) && Domains.Matches(host, ds[i]);
  }

  /** The loop over `best` and `bestLen`. */
  method MostSpecific(rules: seq<Rule>, host: string) returns (best: Option<nat>)
    ensures best.Some? ==> Governs(rules, host, best.value)
    ensures best.None? ==> forall i :: 0 <= i < |rules| ==> !RuleMatches(rules, host, i)
  {
    best := None;
    var bestLen := -1;
    var ds := DomainsOf(rules);
    var k := 0;
    while k < |rules|
      invariant k <= |rules|
      invariant best.None? ==> bestLen == -1 && forall i :: 0 <= i < k ==> !Domains.Matches(host, ds[i])
      invariant best.Some? ==> best.value < k && bestLen == |ds[best.value]| && Domains.Matches(host, ds[best.value])
      invariant best.Some? ==> forall j :: 0 <= j < k && Domains.Matches(host, ds[j]) ==>
                                 |ds[j]| < bestLen || (|ds[j]| == bestLen && best.value <= j)
    {
      var domain := Domains.Normal(rules[k].domain);
      if domain != "" && rules[k].max > 0 && Domains.Matches(host, domain) && |domain| > bestLen {
        best, bestLen := Some(k), |domain|;
      }
      assert ds[k] == DomainOf(rules[k]);
      k := k + 1;
    }
    assert forall i :: 0 <= i < |rules| ==> ds[i] == DomainOf(rules[i]);
  }

  /** The rules a request has to satisfy: its host's most specific one, or all of them when there is no
      target to tell. */
  ghost predicate Applies(rules: seq<Rule>, target: Option<string>, r: Rule) {
    match target
    case None => r in rules && r.domain != "" && r.max > 0
    case Some(host) => host != "" && exists i: nat :: Governs(rules, host, i) && r == rules[i]
  }

  method RulesToCheck(rules: seq<Rule>, target: Option<string>) returns (checked: seq<Rule>)
    ensures forall r :: r in checked <==> Applies(rules, target, r)
    ensures target.Some? ==> |checked| <= 1
  {
    checked := [];
    if target.None? {
      var k := 0;
      while k < |rules|
        invariant k <= |rules|
        invariant forall r :: r in checked <==> r in rules[..k] && r.domain != "" && r.max > 0
      {
        assert rules[..k + 1] == rules[..k] + [rules[k]];
        if rules[k].domain != "" && rules[k].max > 0 {
          checked := checked + [rules[k]];
        }
        k := k + 1;
      }
      assert rules[..k] == rules;
    } else if target.value != "" {
      var best := MostSpecific(rules, target.value);
      forall i: nat | Governs(rules, target.value, i) ensures best == Some(i) {
        OneRuleGoverns(rules, target.value, i, if best.Some? then best.value else i);
      }
      checked := if best.Some? then [rules[best.value]] else [];
    }
  }

  /** How many of the hosts a domain covers, those of its subdomains included. */
  function Count(hosts: seq<string>, d: string): nat {
    if hosts == [] then 0
    else Count(hosts[..|hosts| - 1], d) + (if Domains.Matches(hosts[|hosts| - 1], d) then 1 else 0)
  }

  method CountHosts(hosts: seq<string>, domain: string) returns (count: nat)
    ensures count == Count(hosts, Domains.Normal(domain))
  {
    count := 0;
    var k := 0;
    while k < |hosts|
      invariant k <= |hosts| && count == Count(hosts[..k], Domains.Normal(domain))
    {
      assert hosts[..k + 1][..k] == hosts[..k];
      if hosts[k] != "" && Domains.Matches(hosts[k], Domains.Normal(domain)) {
        count := count + 1;
      }
      k := k + 1;
    }
    assert hosts[..k] == hosts;
  }

  /** Every rule that applies still has a place left. */
  ghost predicate Passes(rules: seq<Rule>, target: Option<string>, hosts: seq<string>) {
    forall r :: Applies(rules, target, r) ==> Count(hosts, Domains.Normal(r.domain)) < r.max
  }

  method AssertDomainTabLimits(rules: seq<Rule>, target: Option<string>, hosts: seq<string>) returns (ok: bool)
    ensures ok <==> Passes(rules, target, hosts)
    ensures target == Some("") ==> ok
    ensures target.None? ==>
              (ok <==> forall r :: r in rules && r.domain != "" && r.max > 0 ==> Count(hosts, Domains.Normal(r.domain)) < r.max)
  {
    var checked := RulesToCheck(rules, target);
    var k := 0;
    while k < |checked|
      invariant k <= |checked|
      invariant forall j :: 0 <= j < k ==> Count(hosts, Domains.Normal(checked[j].domain)) < checked[j].max
    {
      var count := CountHosts(hosts, checked[k].domain);
      if count >= checked[k].max {
        assert Applies(rules, target, checked[k]);
        return false;
      }
      k := k + 1;
    }
    return true;
  }

  // ---------------------------------------------------------------- what the check counts

  /** The hosts rule `i` is the most specific one for. */
  ghost function Own(rules: seq<Rule>, hosts: seq<string>, i: nat): nat {
    if hosts == [] then 0
    else Own(rules, hosts[..|hosts| - 1], i) + (if Governs(rules, hosts[|hosts| - 1], i) then 1 else 0)
  }

  /** The hosts its domain covers although another rule is the most specific one for them. */
  ghost function Excess(rules: seq<Rule>, hosts: seq<string>, i: nat): nat
    requires i < |rules|
  {
    if hosts == [] then 0
    else
      var h := hosts[|hosts| - 1];
      Excess(rules, hosts[..|hosts| - 1], i) + (if RuleMatches(rules, h, i) && !Governs(rules, h, i) then 1 else 0)
  }

  /** The check's count is the rule's own hosts and that excess. */
  lemma {:induction false} CountSplits(rules: seq<Rule>, hosts: seq<string>, i: nat)
    requires i < |rules|
    ensures Count(hosts, DomainOf(rules[i])) == Own(rules, hosts, i) + Excess(rules, hosts, i)
    decreases |hosts|
  {
    if hosts != [] {
      var h := hosts[|hosts| - 1];
      CountSplits(rules, hosts[..|hosts| - 1], i);
      if Governs(rules, h, i) {
        OneRuleGoverns(rules, h, i, i);
      }
    }
  }

  /** A host some rule matches has a most specific rule. */
  lemma {:induction false} SomeRuleGoverns(ds: seq<string>, host: string, i: nat) returns (j: nat)
    requires i < |ds| && Domains.Matches(host, ds[i])
    ensures Domains.Governs(ds, host, j)
    decreases |ds|
  {
    var n := |ds| - 1;
    if k :| 0 <= k < n && Domains.Matches(host, ds[k]) {
      j := SomeRuleGoverns(ds[..n], host, k);
      assert forall m :: 0 <= m < n ==> ds[..n][m] == ds[m];
      if Domains.Matches(host, ds[n]) && |ds[n]| > |ds[j]| {
        j := n;
      }
    } else {
      j := n;
    }
  }

  /** What makes up the excess of a rule that is in use for some host: hosts for which a strictly longer
      rule is the most specific one. */
  lemma ExcessIsLonger(rules: seq<Rule>, target: string, host: string, i: nat) returns (j: nat)
    requires Governs(rules, target, i) && RuleMatches(rules, host, i) && !Governs(rules, host, i)
    ensures Governs(rules, host, j) && j < |rules| && |DomainOf(rules[j])| > |DomainOf(rules[i])|
  {
    var ds := DomainsOf(rules);
    j := SomeRuleGoverns(ds, host, i);
    OneRuleGoverns(rules, target, i, i);
    if |ds[j]| == |ds[i]| {
      Domains.LongestIsUnique(host, ds[i], ds[j]);
    }
  }

  /** When a request is refused although the rule for its host is below its cap: if and only if that rule's
      own hosts are fewer than the cap and the excess makes up the rest. */
  lemma RefusedBelowItsCap(rules: seq<Rule>, target: string, hosts: seq<string>, i: nat)
    requires Governs(rules, target, i)
    ensures i < |rules|
    ensures var own := Own(rules, hosts, i); var max := rules[i].max;
            !Passes(rules, Some(target), hosts) && own < max <==> own < max <= own + Excess(rules, hosts, i)
  {
    OneRuleGoverns(rules, target, i, i);
    CountSplits(rules, hosts, i);
    forall r ensures Applies(rules, Some(target), r) <==> r == rules[i] {
      if j: nat :| Governs(rules, target, j) && r == rules[j] {
        OneRuleGoverns(rules, target, i, j);
      }
    }
    hide Own, Excess, Count, Applies, Governs;
  }

  /** The least such case: a tab on a subdomain with its own cap uses up the parent's only place, and the
      parent is refused with no tab of its own. */
  lemma SubdomainTabUsesParentsPlace(rules: seq<Rule>, hosts: seq<string>)
    requires rules == [Rule("a.b", 1), Rule("c.a.b", 5)] && hosts == ["c.a.b"]
    ensures Governs(rules, "a.b", 0) && Governs(rules, "c.a.b", 1)
    ensures Own(rules, hosts, 0) == 0 && Excess(rules, hosts, 0) == 1 && !Passes(rules, Some("a.b"), hosts)
  {
    Subdomain(rules);
    hide DomainsOf, Governs;
    NotParents(rules);
    assert hosts[..0] == [];
    hide RuleMatches;
    RefusedBelowItsCap(rules, "a.b", hosts, 0);
  }

  lemma Subdomain(rules: seq<Rule>)
    requires rules == [Rule("a.b", 1), Rule("c.a.b", 5)]
    ensures Governs(rules, "a.b", 0) && Governs(rules, "c.a.b", 1) && RuleMatches(rules, "c.a.b", 0)
  {
    assert Domains.Normal("a.b") == "a.b" && Domains.Normal("c.a.b") == "c.a.b";
    hide Domains.Normal;
    assert "c.a.b"[1..] == ".a.b" && "." + "a.b" == ".a.b";
  }

  lemma NotParents(rules: seq<Rule>)
    requires Governs(rules, "c.a.b", 1)
    ensures !Governs(rules, "c.a.b", 0)
  {
    if Governs(rules, "c.a.b", 0) {
      OneRuleGoverns(rules, "c.a.b", 0, 1);
    }
  }
}
