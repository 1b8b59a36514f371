/** The version token that lets a synchronization be skipped. */
module SkipToken {
  import opened Informers

  function Join(parts: seq<string>, separator: string): string {
    if parts == [] then ""
    else if |parts| == 1 then parts[0]
    else parts[0] + separator + Join(parts[1..], separator)
  }

  /** unionLastSyncResourceVersioner: the four policy versions joined by nothing. */
  function PolicyVersion(v: Versions): string {
    Join([v.clusterRoles, v.clusterRoleBindings, v.roles, v.roleBindings], "")
  }

  /** The state SkipSynchronize computes. */
  function Token(v: Versions): string {
    Join([v.namespaces, PolicyVersion(v)], ",")
  }

  lemma TokenIs(v: Versions)
    ensures PolicyVersion(v) == v.clusterRoles + (v.clusterRoleBindings + (v.roles + v.roleBindings))
    ensures Token(v) == v.namespaces + "," + PolicyVersion(v)
    ensures |Token(v)| > 0
  {
    JoinTwo(v.roles, v.roleBindings, "");
    JoinMore(v.clusterRoleBindings, [v.roles, v.roleBindings], "");
    JoinMore(v.clusterRoles, [v.clusterRoleBindings, v.roles, v.roleBindings], "");
    assert [v.clusterRoleBindings] + [v.roles, v.roleBindings] == [v.clusterRoleBindings, v.roles, v.roleBindings];
    assert [v.clusterRoles] + [v.clusterRoleBindings, v.roles, v.roleBindings]
        == [v.clusterRoles, v.clusterRoleBindings, v.roles, v.roleBindings];
    assert v.clusterRoleBindings + "" == v.clusterRoleBindings && v.clusterRoles + "" == v.clusterRoles &&
        v.roles + "" == v.roles;
    JoinTwo(v.namespaces, PolicyVersion(v), ",");
  }

  lemma JoinTwo(a: string, b: string, separator: string)
    ensures Join([a, b], separator) == a + separator + b
  {
    assert [a, b][1..] == [b];
  }

  lemma JoinMore(a: string, rest: seq<string>, separator: string)
    requires rest != []
    ensures Join([a] + rest, separator) == a + separator + Join(rest, separator)
  {
    assert ([a] + rest)[1..] == rest;
  }

  /** The token is ambiguous in general: versions may move across the missing separators. */
  lemma TokenIsAmbiguous() returns (v: Versions, v': Versions)
    ensures v != v' && Token(v) == Token(v')
  {
    v, v' := Versions("7", "1", "12", "3", "4"), Versions("7", "11", "2", "3", "4");
    TokenIs(v);
    TokenIs(v');
    assert PolicyVersion(v) == "11234" == PolicyVersion(v');
  }

  // ---- canonical decimals ----------------------------------------------------------------------

  predicate Digits(s: string) {
    forall k | 0 <= k < |s| :: '0' <= s[k] <= '9'
  }

  /** Nothing yet, or a decimal without superfluous leading zeros. */
  predicate IsVersion(s: string) {
    Digits(s) && (|s| > 1 ==> s[0] != '0')
  }

  function Value(s: string): nat
    requires Digits(s)
  {
    if s == "" then 0 else 10 * Value(s[..|s| - 1]) + (s[|s| - 1] as int - '0' as int)
  }

  function Power(n: nat): nat {
    if n == 0 then 1 else 10 * Power(n - 1)
  }

  /** A reflector's version never goes back to empty and never decreases. */
  predicate Grows(a: string, b: string)
    requires IsVersion(a) && IsVersion(b)
  {
    a == "" || (b != "" && Value(a) <= Value(b))
  }

  lemma {:induction false} ValueBelow(s: string)
    requires Digits(s)
    ensures Value(s) < Power(|s|)
  {
    if s != "" {
      ValueBelow(s[..|s| - 1]);
    }
  }

  lemma {:induction false} ValueAtLeast(s: string)
    requires Digits(s) && s != "" && s[0] != '0'
    ensures Power(|s| - 1) <= Value(s)
  {
    if |s| == 1 {
      assert s[..0] == "";
    } else {
      ValueAtLeast(s[..|s| - 1]);
    }
  }

  lemma {:induction false} PowerGrows(a: nat, b: nat)
    requires a <= b
    ensures 1 <= Power(a) <= Power(b)
  {
    if b > 0 {
      if a == b {
        PowerGrows(a - 1, b - 1);
      } else {
        PowerGrows(a, b - 1);
      }
    }
  }

  /** A version that does not decrease does not get shorter. */
  lemma GrowingIsNotShorter(a: string, b: string)
    requires IsVersion(a) && IsVersion(b) && Grows(a, b)
    ensures |a| <= |b|
  {
    if |a| > |b| && |a| > 1 {
      ValueAtLeast(a);
      ValueBelow(b);
      PowerGrows(|b|, |a| - 1);
    }
  }

  predicate ValidVersions(v: Versions) {
    && IsVersion(v.namespaces) && IsVersion(v.clusterRoles) && IsVersion(v.clusterRoleBindings)
    && IsVersion(v.roles) && IsVersion(v.roleBindings)
  }

  predicate VersionsGrow(v: Versions, v': Versions)
    requires ValidVersions(v) && ValidVersions(v')
  {
    && Grows(v.namespaces, v'.namespaces) && Grows(v.clusterRoles, v'.clusterRoles)
    && Grows(v.clusterRoleBindings, v'.clusterRoleBindings) && Grows(v.roles, v'.roles)
    && Grows(v.roleBindings, v'.roleBindings)
  }

  /** Equal joins whose parts did not get shorter have equal parts. */
  lemma SplitAt(a: string, p: string, a': string, p': string)
    requires a + p == a' + p' && |a| <= |a'| && |p| <= |p'|
    ensures a == a' && p == p'
  {
    assert |a + p| == |a' + p'|;
    assert a == (a + p)[..|a|] && a' == (a' + p')[..|a'|];
    assert p == (a + p)[|a|..] && p' == (a' + p')[|a'|..];
  }

  lemma SplitAtComma(a: string, p: string, a': string, p': string)
    requires ',' !in a && ',' !in a' && a + "," + p == a' + "," + p'
    ensures a == a' && p == p'
  {
    var t := a + "," + p;
    assert t == a' + "," + p';
    assert t[|a|] == ',' && t[|a'|] == ',';
    assert forall k | 0 <= k < |a| :: t[k] == a[k];
    assert forall k | 0 <= k < |a'| :: t[k] == a'[k];
    assert |a| == |a'|;
    assert a == t[..|a|] && a' == t[..|a'|];
    assert p == t[|a| + 1..] && p' == t[|a'| + 1..];
  }

  /** The first three policy versions, which nothing separates from what follows, have the same lengths. */
  predicate SameLengths(v: Versions, v': Versions) {
    && |v.clusterRoles| == |v'.clusterRoles|
    && |v.clusterRoleBindings| == |v'.clusterRoleBindings|
    && |v.roles| == |v'.roles|
  }

  /** Exactly when an unchanged token means unchanged versions. */
  lemma SameTokenSameVersionsIff(v: Versions, v': Versions)
    requires ',' !in v.namespaces && ',' !in v'.namespaces
    requires Token(v) == Token(v')
    ensures v == v' <==> SameLengths(v, v')
  {
    if SameLengths(v, v') {
      SameParts(v, v');
      SplitAt(v.clusterRoles, v.clusterRoleBindings + (v.roles + v.roleBindings),
              v'.clusterRoles, v'.clusterRoleBindings + (v'.roles + v'.roleBindings));
      SplitAt(v.clusterRoleBindings, v.roles + v.roleBindings, v'.clusterRoleBindings, v'.roles + v'.roleBindings);
      SplitAt(v.roles, v.roleBindings, v'.roles, v'.roleBindings);
    }
  }

  lemma SameParts(v: Versions, v': Versions)
    requires ',' !in v.namespaces && ',' !in v'.namespaces
    requires Token(v) == Token(v')
    ensures v.namespaces == v'.namespaces
    ensures v.clusterRoles + (v.clusterRoleBindings + (v.roles + v.roleBindings)) ==
            v'.clusterRoles + (v'.clusterRoleBindings + (v'.roles + v'.roleBindings))
  {
    TokenIs(v);
    TokenIs(v');
    SplitAtComma(v.namespaces, PolicyVersion(v), v'.namespaces, PolicyVersion(v'));
  }

  /** Faithfulness: while every reflector's version is empty or a decimal that never decreases, the
      token is unchanged exactly when all five versions are. */
  lemma TokenIsFaithful(v: Versions, v': Versions)
    requires ValidVersions(v) && ValidVersions(v') && VersionsGrow(v, v')
    ensures Token(v) == Token(v') <==> v == v'
  {
    if Token(v) == Token(v') {
      SameParts(v, v');
      GrowingKeepsLengths(v, v');
      SameTokenSameVersionsIff(v, v');
    }
  }

  lemma GrowingKeepsLengths(v: Versions, v': Versions)
    requires ValidVersions(v) && ValidVersions(v') && VersionsGrow(v, v')
    requires |v.clusterRoles + (v.clusterRoleBindings + (v.roles + v.roleBindings))| ==
             |v'.clusterRoles + (v'.clusterRoleBindings + (v'.roles + v'.roleBindings))|
    ensures SameLengths(v, v')
  {
    GrowingIsNotShorter(v.clusterRoles, v'.clusterRoles);
    GrowingIsNotShorter(v.clusterRoleBindings, v'.clusterRoleBindings);
    GrowingIsNotShorter(v.roles, v'.roles);
    GrowingIsNotShorter(v.roleBindings, v'.roleBindings);
  }
}
