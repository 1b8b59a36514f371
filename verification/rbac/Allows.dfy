/** Rule matching: does one policy rule, or any of several, allow a request? */
module Allows {
  import opened RbacTypes

  predicate RulesAllow(a: Attributes, rules: seq<PolicyRule>) {
    exists rule | rule in rules :: RuleAllows(a, rule)
  }

  predicate RuleAllows(a: Attributes, rule: PolicyRule) {
    if a.resourceRequest then
      var combined := if |a.subresource| > 0 then a.resource + "/" + a.subresource else a.resource;
      && VerbMatches(rule, a.verb)
      && APIGroupMatches(rule, a.apiGroup)
      && ResourceMatches(rule, combined, a.subresource)
      && ResourceNameMatches(rule, a.name)
    else
      && VerbMatches(rule, a.verb)
      && NonResourceURLMatches(rule, a.path)
  }

  predicate VerbMatches(rule: PolicyRule, verb: string) {
    exists v | v in rule.verbs :: v == ALL || v == verb
  }

  predicate APIGroupMatches(rule: PolicyRule, group: string) {
    exists g | g in rule.apiGroups :: g == ALL || g == group
  }

  predicate ResourceMatches(rule: PolicyRule, combined: string, subresource: string) {
    exists r | r in rule.resources ::
      r == ALL || r == combined || (|subresource| > 0 && MatchesAnySubresource(r, subresource))
  }

  /** The three tests the matcher makes for a rule of the form "* / subresource". */
  predicate MatchesAnySubresource(r: string, subresource: string) {
    && |r| == |subresource| + 2
    && HasPrefix(r, "*/")
    && HasSuffix(r, subresource)
  }

  predicate ResourceNameMatches(rule: PolicyRule, name: string) {
    |rule.resourceNames| == 0 || name in rule.resourceNames
  }

  predicate NonResourceURLMatches(rule: PolicyRule, url: string) {
    exists u | u in rule.nonResourceURLs ::
      u == ALL || u == url || (HasSuffix(u, "*") && HasPrefix(url, TrimStars(u)))
  }

  predicate HasPrefix(s: string, prefix: string) {
    prefix <= s
  }

  predicate HasSuffix(s: string, suffix: string) {
    |suffix| <= |s| && s[|s| - |suffix|..] == suffix
  }

  /** strings.TrimRight(s, "*") */
  function TrimStars(s: string): string {
    if |s| > 0 && s[|s| - 1] == '*' then TrimStars(s[..|s| - 1]) else s
  }

  // ---- what the matchers amount to -------------------------------------------------------------

  /** Exactly which rules allow a request for a resource. */
  lemma ResourceRequestAllowedIff(a: Attributes, rule: PolicyRule)
    requires a.resourceRequest
    ensures RuleAllows(a, rule) <==>
            && ("*" in rule.verbs || a.verb in rule.verbs)
            && ("*" in rule.apiGroups || a.apiGroup in rule.apiGroups)
            && ("*" in rule.resources || if a.subresource == "" then a.resource in rule.resources
                else a.resource + "/" + a.subresource in rule.resources || "*/" + a.subresource in rule.resources)
            && (rule.resourceNames == [] || a.name in rule.resourceNames)
  {
    forall r ensures MatchesAnySubresource(r, a.subresource) <==> r == "*/" + a.subresource {
      if MatchesAnySubresource(r, a.subresource) {
        assert r == r[..2] + r[2..] && r[..2] == "*/";
      }
    }
  }

  /** A rule for everything, and for no names in particular, allows every request for a resource. */
  lemma StarsAllowEveryResource(a: Attributes, rule: PolicyRule)
    requires "*" in rule.verbs && "*" in rule.apiGroups && "*" in rule.resources && rule.resourceNames == []
    requires a.resourceRequest
    ensures RuleAllows(a, rule)
  {
    ResourceRequestAllowedIff(a, rule);
  }

  /** Exactly which rules allow a request for a path: by "*", by the path itself, or by some beginning of it
      followed by stars. */
  lemma PathRequestAllowedIff(a: Attributes, rule: PolicyRule)
    requires !a.resourceRequest
    ensures RuleAllows(a, rule) <==>
            && ("*" in rule.verbs || a.verb in rule.verbs)
            && ("*" in rule.nonResourceURLs || a.path in rule.nonResourceURLs ||
                exists u, k: nat | u in rule.nonResourceURLs && k < |u| :: u[..k] <= a.path && Stars(u[k..]))
  {
    forall u, k: nat | u in rule.nonResourceURLs && k < |u| && u[..k] <= a.path && Stars(u[k..])
      ensures HasSuffix(u, "*") && HasPrefix(a.path, TrimStars(u))
    {
      TrimmedIsShortest(u, k);
      assert u[k..][|u| - k - 1] in u[k..];
    }
    forall u | u in rule.nonResourceURLs && HasSuffix(u, "*") && HasPrefix(a.path, TrimStars(u))
      ensures exists k: nat | k < |u| :: u[..k] <= a.path && Stars(u[k..])
    {
      TrimmedLeavesStars(u);
      assert u[|u| - 1] == '*';
      var k := |TrimStars(u)|;
      assert u[..k] <= a.path && Stars(u[k..]);
    }
  }

  predicate Stars(s: string) {
    forall c | c in s :: c == '*'
  }

  lemma {:induction false} TrimmedLeavesStars(u: string)
    ensures TrimStars(u) <= u && Stars(u[|TrimStars(u)|..])
    ensures u != "" && u[|u| - 1] == '*' ==> |TrimStars(u)| < |u|
  {
    if u != "" && u[|u| - 1] == '*' {
      var init := u[..|u| - 1];
      TrimmedLeavesStars(init);
      var k := |TrimStars(u)|;
      assert u[k..] == init[k..] + ['*'];
    }
  }

  lemma {:induction false} TrimmedIsShortest(u: string, k: nat)
    requires k <= |u| && Stars(u[k..])
    ensures TrimStars(u) <= u[..k]
  {
    if k < |u| {
      var init := u[..|u| - 1];
      assert u[k..][|u| - 1 - k] in u[k..];
      assert forall c | c in init[k..] :: c in u[k..];
      TrimmedIsShortest(init, k);
      assert init[..k] == u[..k];
    } else {
      TrimmedLeavesStars(u);
      assert u[..k] == u;
    }
  }
}
