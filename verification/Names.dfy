/** How the operator derives names, and why the derived names tell their owners apart. */
module Names {
  import opened Text
  import opened Objects

  const LEASE_PREFIX := "resource-lease-"
  const SECRET_PREFIX := "sf-appuser-"

  function LeaseName(providerType: string, resourceName: string): string {
    LEASE_PREFIX + providerType + "-" + resourceName
  }

  /** The slice taken by the deletion path. */
  function ResourceNameOf(providerType: string, leaseName: string): string {
    var parts := |LEASE_PREFIX| + |providerType| + 1;
    if |leaseName| > parts then leaseName[parts..] else ""
  }

  predicate SlashFree(s: string) {
    '/' !in s
  }

  /** Namespaces and names of Kubernetes objects contain no slash. */
  predicate ValidKey(k: ClaimKey) {
    SlashFree(k.ns) && SlashFree(k.name)
  }

  function HolderIdentity(k: ClaimKey): string {
    k.ns + "/" + k.name
  }

  /** Namespace and name of the per-claim Secret, from a claim's "namespace/name". */
  function AppSecret(claimName: string): SecretKey {
    SecretKey(Before(claimName, '/'), SECRET_PREFIX + ReplaceAll(claimName, '/', "-"))
  }

  lemma SliceUndoesLeaseName(providerType: string, resourceName: string)
    ensures ResourceNameOf(providerType, LeaseName(providerType, resourceName)) == resourceName
  {
    var head := LEASE_PREFIX + providerType + "-";
    assert LeaseName(providerType, resourceName) == head + resourceName;
    assert (head + resourceName)[|head|..] == resourceName;
  }

  /** `t` is `u` followed by a dash and possibly more. */
  predicate Extends(t: string, u: string) {
    u + "-" <= t
  }

  lemma LeaseNameTail(t: string, r: string, u: string, s: string)
    ensures LeaseName(t, r) == LeaseName(u, s) <==> t + "-" + r == u + "-" + s
  {
    assert LeaseName(t, r) == LEASE_PREFIX + (t + "-" + r);
    assert LeaseName(u, s) == LEASE_PREFIX + (u + "-" + s);
    assert LeaseName(t, r)[|LEASE_PREFIX|..] == t + "-" + r;
    assert LeaseName(u, s)[|LEASE_PREFIX|..] == u + "-" + s;
  }

  ghost predicate SameLease(t: string, r: string, u: string, s: string) {
    r != "" && s != "" && (t, r) != (u, s) && LeaseName(t, r) == LeaseName(u, s)
  }

  lemma ExtensionCollides(t: string, u: string)
    requires Extends(t, u)
    ensures exists r, s :: SameLease(t, r, u, s)
  {
    var s := t[|u| + 1..] + "-" + "x";
    assert t == u + "-" + t[|u| + 1..];
    assert t + "-" + "x" == u + "-" + s;
    LeaseNameTail(t, "x", u, s);
    assert SameLease(t, "x", u, s);
  }

  lemma CollisionExtends(t: string, r: string, u: string, s: string)
    requires |u| <= |t| && SameLease(t, r, u, s)
    ensures Extends(t, u)
  {
    LeaseNameTail(t, r, u, s);
    var whole := t + "-" + r;
    assert whole == u + "-" + s;
    assert whole[..|u| + 1] == u + "-";
    assert whole[..|t|] == t && whole[..|u|] == u;
    assert whole[|t| + 1..] == r && whole[|u| + 1..] == s;
    assert |u| != |t|;
    assert t[..|u| + 1] == u + "-";
  }

  /**
   * Some resources of two provider types share a lease name exactly when one type
   * is the other followed by a dash (and possibly more text).
   */
  lemma LeaseNamesCollideIff(t: string, u: string)
    ensures (exists r, s :: SameLease(t, r, u, s)) <==> Extends(t, u) || Extends(u, t)
  {
    if Extends(t, u) {
      ExtensionCollides(t, u);
    } else if Extends(u, t) {
      ExtensionCollides(u, t);
      var r, s :| SameLease(u, r, t, s);
      assert SameLease(t, s, u, r);
    } else if exists r, s :: SameLease(t, r, u, s) {
      var r, s :| SameLease(t, r, u, s);
      if |u| <= |t| {
        CollisionExtends(t, r, u, s);
      } else {
        assert SameLease(u, s, t, r);
        CollisionExtends(u, s, t, r);
      }
    }
  }

  lemma HolderIdentityInjective(j: ClaimKey, k: ClaimKey)
    requires SlashFree(j.ns) && SlashFree(k.ns)
    ensures HolderIdentity(j) == HolderIdentity(k) <==> j == k
  {
    assert HolderIdentity(j) == j.ns + ['/'] + j.name;
    assert HolderIdentity(k) == k.ns + ['/'] + k.name;
    if HolderIdentity(j) == HolderIdentity(k) {
      SplitUnique(j.ns, j.name, k.ns, k.name, '/');
    }
  }

  lemma AppSecretIs(k: ClaimKey)
    requires ValidKey(k)
    ensures AppSecret(HolderIdentity(k)) == SecretKey(k.ns, SECRET_PREFIX + (k.ns + "-" + k.name))
  {
    var id := HolderIdentity(k);
    assert id == k.ns + ['/'] + k.name == k.ns + ("/" + k.name);
    BeforeSeparator(k.ns, k.name, '/');
    ReplaceAllConcat(k.ns, "/" + k.name, '/', "-");
    ReplaceAllConcat("/", k.name, '/', "-");
    ReplaceAllAbsent(k.ns, '/', "-");
    ReplaceAllAbsent(k.name, '/', "-");
    assert ReplaceAll("/", '/', "-") == "-";
    assert k.ns + ("-" + k.name) == k.ns + "-" + k.name;
  }

  /** Different claims have different per-claim Secrets. */
  lemma AppSecretInjective(j: ClaimKey, k: ClaimKey)
    requires ValidKey(j) && ValidKey(k)
    ensures AppSecret(HolderIdentity(j)) == AppSecret(HolderIdentity(k)) <==> j == k
    ensures AppSecret(HolderIdentity(k)).ns == k.ns
    ensures HasPrefix(AppSecret(HolderIdentity(k)).name, SECRET_PREFIX)
  {
    AppSecretIs(j);
    AppSecretIs(k);
    var a, b := AppSecret(HolderIdentity(j)), AppSecret(HolderIdentity(k));
    assert a.name[|SECRET_PREFIX|..] == j.ns + "-" + j.name;
    assert b.name[|SECRET_PREFIX|..] == k.ns + "-" + k.name;
    if a == b {
      assert (j.ns + "-" + j.name)[|j.ns| + 1..] == j.name;
      assert (k.ns + "-" + k.name)[|k.ns| + 1..] == k.name;
    }
  }

  /** The Secret's name alone does not tell claims apart: its namespace is needed. */
  lemma AppSecretNameAloneCollides()
    ensures exists j, k :: ValidKey(j) && ValidKey(k) && j != k
                        && AppSecret(HolderIdentity(j)).name == AppSecret(HolderIdentity(k)).name
  {
    var j, k := ClaimKey("a-b", "c"), ClaimKey("a", "b-c");
    assert ValidKey(j) && ValidKey(k);
    AppSecretIs(j);
    AppSecretIs(k);
    assert j.ns + "-" + j.name == "a-b-c" == k.ns + "-" + k.name;
  }
}
