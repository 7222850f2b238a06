/** How a configured domain applies to a host. The daemon's rate limits and the extension's tab
    caps share these rules: exact host or a subdomain at a label boundary, longest domain first. */
module Domains {

  predicate IsSpace(c: char) {
    c == ' ' || '\t' <= c <= '\r'
  }

  function LowerChar(c: char): char {
    if 'A' <= c <= 'Z' then (c as int - 'A' as int + 'a' as int) as char else c
  }

  function Lower(s: string): string {
    seq(|s|, i requires 0 <= i < |s| => LowerChar(s[i]))
  }

  function Trim(s: string): string {
    if s == "" then s
    else if IsSpace(s[0]) then Trim(s[1..])
    else if IsSpace(s[|s| - 1]) then Trim(s[..|s| - 1])
    else s
  }

  /** The form under which a configured domain is compared and its grants are filed. */
  function Normal(domain: string): string {
    Lower(Trim(domain))
  }

  predicate EndsWith(s: string, suffix: string) {
    |suffix| <= |s| && s[|s| - |suffix|..] == suffix
  }

  /** `d` is a normalised domain; an empty one matches nothing. */
  predicate Matches(host: string, d: string) {
    d != "" && (host == d || EndsWith(host, "." + d))
  }

  /** Entry `i` is the one that governs `host`: it matches, no matching entry is longer, and of the
      entries as long as it is the first. */
  ghost predicate Governs(ds: seq<string>, host: string, i: nat) {
    && i < |ds|
    && Matches(host, ds[i])
    && forall j :: 0 <= j < |ds| && Matches(host, ds[j]) ==> |ds[j]| < |ds[i]| || (|ds[j]| == |ds[i]| && i <= j)
  }

  /** Two domains of one length that match one host are the same domain, so "longest" leaves no tie
      between different domains. */
  lemma LongestIsUnique(host: string, d: string, e: string)
    requires Matches(host, d) && Matches(host, e) && |d| == |e|
    ensures d == e
  {
    if host != d && host != e {
      assert d == ("." + d)[1..] && e == ("." + e)[1..];
    }
  }

  /** The governing domain does not depend on the order in which the rules are listed. */
  lemma GoverningDomainIgnoresOrder(ds: seq<string>, es: seq<string>, host: string, i: nat, j: nat)
    requires Governs(ds, host, i) && Governs(es, host, j)
    requires multiset(ds) == multiset(es)
    ensures ds[i] == es[j]
  {
    assert ds[i] in multiset(es) && es[j] in multiset(ds);
    LongestIsUnique(host, ds[i], es[j]);
  }

  // ---------------------------------------------------------------- what matching and normalising mean

  /** The labels of a host, between its dots. */
  function Labels(s: string): (r: seq<string>)
    ensures |r| >= 1
  {
    if s == "" then [""] else Grown(s[0], Labels(s[1..]))
  }

  /** The labels after putting one more character in front. */
  function Grown(c: char, labels: seq<string>): (r: seq<string>)
    requires |labels| >= 1
    ensures |r| >= 1
  {
    if c == '.' then [""] + labels else [[c] + labels[0]] + labels[1..]
  }

  lemma GrownParts(c: char, a: seq<string>, b: seq<string>)
    requires |a| >= 1
    ensures Grown(c, a + b) == Grown(c, a) + b
  {
    assert (a + b)[1..] == a[1..] + b;
  }

  function Join(labels: seq<string>): string
    requires |labels| >= 1
  {
    if |labels| == 1 then labels[0] else labels[0] + "." + Join(labels[1..])
  }

  lemma {:induction false} JoinLabels(s: string)
    ensures Join(Labels(s)) == s
  {
    if s != "" {
      JoinLabels(s[1..]);
      var rest := Labels(s[1..]);
      if s[0] == '.' {
        assert ([""] + rest)[1..] == rest;
      } else {
        assert ([[s[0]] + rest[0]] + rest[1..])[1..] == rest[1..];
      }
    }
  }

  lemma {:induction false} LabelsOfParts(p: string, q: string)
    ensures Labels(p + "." + q) == Labels(p) + Labels(q)
  {
    var host := p + "." + q;
    if p == "" {
      assert host[1..] == q;
    } else {
      LabelsOfParts(p[1..], q);
      assert host[1..] == p[1..] + "." + q;
      GrownParts(p[0], Labels(p[1..]), Labels(q));
    }
  }

  /** A host can be cut between any two of its labels. */
  lemma {:induction false} CutAt(host: string, k: nat) returns (p: string, q: string)
    requires 0 < k < |Labels(host)|
    ensures host == p + "." + q && Labels(q) == Labels(host)[k..]
  {
    var rest := Labels(host[1..]);
    if host[0] == '.' && k == 1 {
      p, q := "", host[1..];
    } else if host[0] == '.' {
      p, q := CutAt(host[1..], k - 1);
      p := "." + p;
      assert ([""] + rest)[k..] == rest[k - 1..];
    } else {
      p, q := CutAt(host[1..], k);
      p := [host[0]] + p;
      assert ([[host[0]] + rest[0]] + rest[1..])[k..] == rest[k..];
    }
  }

  /** A domain matches exactly the hosts whose last labels are its labels. */
  lemma MatchesLastLabels(host: string, d: string)
    ensures Matches(host, d) <==>
            d != "" && |Labels(d)| <= |Labels(host)| && Labels(host)[|Labels(host)| - |Labels(d)|..] == Labels(d)
  {
    var k := |Labels(host)| - |Labels(d)|;
    if EndsWith(host, "." + d) {
      var p := host[..|host| - |"." + d|];
      assert host == p + "." + d;
      LabelsOfParts(p, d);
      assert Labels(host) == Labels(p) + Labels(d);
    }
    if 0 <= k && Labels(host)[k..] == Labels(d) {
      JoinLabels(d);
      if k == 0 {
        JoinLabels(host);
        assert Labels(host)[0..] == Labels(host);
      } else {
        var p, q := CutAt(host, k);
        JoinLabels(q);
        assert host[|p|..] == "." + d;
      }
    }
  }

  /** Of two domains that match a host, the one with more labels is the longer. */
  lemma MoreLabelsLonger(host: string, d: string, e: string)
    requires Matches(host, d) && Matches(host, e) && |Labels(d)| < |Labels(e)|
    ensures |d| < |e|
  {
    hide Labels, Matches, Join;
    MatchesLastLabels(host, d);
    MatchesLastLabels(host, e);
    var k := |Labels(e)| - |Labels(d)|;
    LastOfLast(Labels(host), |Labels(e)|, |Labels(d)|);
    var p, q := CutAt(e, k);
    JoinLabels(q);
    JoinLabels(d);
  }

  lemma LastOfLast(s: seq<string>, m: nat, n: nat)
    requires n <= m <= |s|
    ensures s[|s| - m..][m - n..] == s[|s| - n..]
  {}

  /** The governing entry in terms of labels: of the matching entries the one with the most, and of those that
      are the same domain the first. */
  lemma MostLabelsGovern(ds: seq<string>, host: string, i: nat)
    requires i < |ds| && Matches(host, ds[i])
    ensures Governs(ds, host, i) <==>
            forall j :: 0 <= j < |ds| && Matches(host, ds[j]) ==>
              |Labels(ds[j])| < |Labels(ds[i])| || (ds[j] == ds[i] && i <= j)
  {
    forall j | 0 <= j < |ds| && Matches(host, ds[j])
      ensures |ds[j]| < |ds[i]| || (|ds[j]| == |ds[i]| && i <= j) <==>
              |Labels(ds[j])| < |Labels(ds[i])| || (ds[j] == ds[i] && i <= j)
    {
      CompareByLabels(host, ds[j], ds[i]);
    }
    hide Labels, Matches;
  }

  lemma CompareByLabels(host: string, d: string, e: string)
    requires Matches(host, d) && Matches(host, e)
    ensures |d| < |e| <==> |Labels(d)| < |Labels(e)|
    ensures |d| == |e| <==> d == e
  {
    hide Labels, Matches, Join;
    if |d| == |e| {
      LongestIsUnique(host, d, e);
    }
    if |Labels(d)| == |Labels(e)| {
      MatchesLastLabels(host, d);
      MatchesLastLabels(host, e);
      JoinLabels(d);
      JoinLabels(e);
    } else if |Labels(d)| < |Labels(e)| {
      MoreLabelsLonger(host, d, e);
    } else {
      MoreLabelsLonger(host, e, d);
    }
  }

  /** Normalising cuts off the white space at both ends, no more and no less, and lowers the case of what is
      left. */
  lemma NormalMeans(domain: string) returns (pre: string, mid: string, post: string)
    ensures domain == pre + mid + post && (forall c :: c in pre + post ==> IsSpace(c))
    ensures mid == "" || (!IsSpace(mid[0]) && !IsSpace(mid[|mid| - 1]))
    ensures |Normal(domain)| == |mid|
    ensures forall i :: 0 <= i < |mid| ==>
              Normal(domain)[i] == if 'A' <= mid[i] <= 'Z' then mid[i] + ('a' - 'A') else mid[i]
  {
    pre, mid, post := TrimMeans(domain);
  }

  lemma {:induction false} TrimMeans(s: string) returns (pre: string, mid: string, post: string)
    ensures s == pre + mid + post && Trim(s) == mid && (forall c :: c in pre + post ==> IsSpace(c))
    ensures mid == "" || (!IsSpace(mid[0]) && !IsSpace(mid[|mid| - 1]))
    decreases |s|
  {
    if s == "" || (!IsSpace(s[0]) && !IsSpace(s[|s| - 1])) {
      pre, mid, post := "", s, "";
    } else if IsSpace(s[0]) {
      pre, mid, post := TrimMeans(s[1..]);
      pre := [s[0]] + pre;
    } else {
      pre, mid, post := TrimMeans(s[..|s| - 1]);
      post := post + [s[|s| - 1]];
    }
  }
}
