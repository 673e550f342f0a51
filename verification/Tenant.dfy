/** Tenant scopes of src/contracts/tenant.rs: what gets prefixed, and what a recall may name. */
module Tenants {
  import opened Strings

  datatype TenantContext = TenantContext(enabled: bool, tenantId: Option<string>)

  datatype ScopeError = DefaultForbidden | ScopeMismatch

  /** The tenant itself, or an id below it after ':' or '/'. */
  predicate InScope(tenant: string, id: string) {
    id == tenant || (|id| > |tenant| && id[..|tenant|] == tenant && (id[|tenant|] == ':' || id[|tenant|] == '/'))
  }

  predicate HasTenant(c: TenantContext) {
    c.tenantId.Some? && c.tenantId.value != ""
  }

  function ScopeEntityId(c: TenantContext, entityId: string): string {
    var requested := Trim(entityId);
    if !c.enabled || requested == "" then requested
    else if !HasTenant(c) then requested
    else if InScope(c.tenantId.value, requested) then requested
    else c.tenantId.value + ":" + requested
  }

  function EnforceRecallScope(c: TenantContext, entityId: string): Result<(), ScopeError> {
    if !c.enabled then Ok(())
    else
      var requested := Trim(entityId);
      if requested == "" || requested == "default" then Err(DefaultForbidden)
      else if !HasTenant(c) then Err(ScopeMismatch)
      else if InScope(c.tenantId.value, requested) then Ok(())
      else Err(ScopeMismatch)
  }

  function Enabled(tenant: string): TenantContext {
    TenantContext(true, Some(tenant))
  }

  /** A tenant id that trimming an id below it leaves alone. */
  predicate Rooted(tenant: string) {
    tenant != "" && !IsWhitespace(tenant[0])
  }

  /** The same spelled out: the tenant, or the tenant, a separator and any text. */
  ghost predicate Below(tenant: string, id: string) {
    id == tenant || exists rest :: id == tenant + ":" + rest || id == tenant + "/" + rest
  }

  lemma InScopeIff(tenant: string, id: string)
    ensures InScope(tenant, id) <==> Below(tenant, id)
  {
    if InScope(tenant, id) && id != tenant {
      var n := |tenant|;
      var rest := id[n + 1..];
      assert id == id[..n] + [id[n]] + rest;
    }
    if rest :| id == tenant + ":" + rest || id == tenant + "/" + rest {
      assert id[..|tenant|] == tenant;
    }
  }

  // ----- scoping -----

  lemma TrimTwice(s: string)
    ensures Trim(Trim(s)) == Trim(s)
  {
    TrimIdentity(Trim(s));
  }

  /** With a tenant set, an id outside its scope gets the tenant and a colon in front; any other id is trimmed. */
  lemma ScopedIdIs(c: TenantContext, e: string)
    ensures var prefixed := c.enabled && c.tenantId.Some? && c.tenantId.value != "" && Trim(e) != ""
                            && !Below(c.tenantId.value, Trim(e));
            ScopeEntityId(c, e) == if prefixed then c.tenantId.value + ":" + Trim(e) else Trim(e)
  {
    hide Trim, InScope, Below;
    if c.tenantId.Some? {
      InScopeIff(c.tenantId.value, Trim(e));
    }
  }

  /** Below a rooted tenant a scoped id is trimmed and in scope. */
  lemma ScopedIdForm(tenant: string, e: string)
    requires Rooted(tenant) && Trim(e) != ""
    ensures var r := ScopeEntityId(Enabled(tenant), e);
            r != "" && Trim(r) == r && InScope(tenant, r)
  {
    hide Trim;
    var requested := Trim(e);
    if InScope(tenant, requested) {
      TrimTwice(e);
    } else {
      var r := tenant + ":" + requested;
      assert r[0] == tenant[0] && r[|r| - 1] == requested[|requested| - 1];
      TrimIdentity(r);
      assert r[..|tenant|] == tenant && r[|tenant|] == ':';
    }
  }

  lemma ScopeTwiceWhenRooted(tenant: string, e: string)
    requires Rooted(tenant)
    ensures var c := Enabled(tenant);
            ScopeEntityId(c, ScopeEntityId(c, e)) == ScopeEntityId(c, e)
  {
    hide Trim;
    TrimTwice(e);
    if Trim(e) != "" {
      ScopedIdForm(tenant, e);
    }
  }

  lemma {:induction false} TrimStartKeeps(a: string, b: string)
    requires b != "" && !IsWhitespace(b[0])
    ensures |TrimStart(a + b)| >= |b|
    decreases |a|
  {
    if a == "" {
      assert a + b == b;
    } else {
      assert (a + b)[1..] == a[1..] + b;
      TrimStartKeeps(a[1..], b);
    }
  }

  lemma TrimKeepsTail(a: string)
    ensures |Trim(a + ":x")| >= 2
  {
    hide TrimStart;
    TrimStartKeeps(a, ":x");
    var started := TrimStart(a + ":x");
    assert (a + ":x")[|a + ":x"| - 1] == 'x';
    assert started[|started| - 1] == 'x';
    assert TrimEnd(started) == started;
  }

  /** Below a tenant id that starts with white space, every scoping adds the prefix. */
  lemma PrefixAdded(tenant: string, e: string)
    requires tenant != "" && IsWhitespace(tenant[0]) && Trim(e) != ""
    ensures ScopeEntityId(Enabled(tenant), e) == tenant + ":" + Trim(e)
  {
    hide Trim, IsWhitespace;
    assert Trim(e)[0] != tenant[0];
  }

  lemma XIsTrimmed()
    ensures Trim("x") == "x"
  {
    TrimIdentity("x");
  }

  lemma LongerText(a: string, b: string)
    requires |a| > |b|
    ensures a != b
  {
  }

  lemma ScopeNotTwice(tenant: string)
    requires tenant != "" && IsWhitespace(tenant[0])
    ensures var c := Enabled(tenant);
            ScopeEntityId(c, ScopeEntityId(c, "x")) != ScopeEntityId(c, "x")
  {
    hide Trim, IsWhitespace, ScopeEntityId;
    XIsTrimmed();
    TrimKeepsTail(tenant);
    assert tenant + ":" + "x" == tenant + ":x";
    PrefixAdded(tenant, "x");
    PrefixAdded(tenant, tenant + ":x");
    LongerText(tenant + ":" + Trim(tenant + ":x"), tenant + ":x");
  }

  /** Scoping twice is scoping once for every id exactly when the tenant id does not start with white space. */
  lemma ScopeIdempotentIff(tenant: string)
    requires tenant != ""
    ensures var c := Enabled(tenant);
            (forall e :: ScopeEntityId(c, ScopeEntityId(c, e)) == ScopeEntityId(c, e)) <==> !IsWhitespace(tenant[0])
  {
    var c := Enabled(tenant);
    if Rooted(tenant) {
      forall e
        ensures ScopeEntityId(c, ScopeEntityId(c, e)) == ScopeEntityId(c, e)
      {
        ScopeTwiceWhenRooted(tenant, e);
      }
    } else {
      ScopeNotTwice(tenant);
    }
  }

  // ----- recalling -----

  lemma RecallAcceptedIff(c: TenantContext, e: string)
    ensures EnforceRecallScope(c, e).Ok? <==>
            !c.enabled || (HasTenant(c) && InScope(c.tenantId.value, Trim(e)) && Trim(e) != "default")
  {
    hide Trim;
  }

  lemma EmptyIsNotBelow(tenant: string)
    requires tenant != ""
    ensures !Below(tenant, "")
  {
  }

  /**
   In tenant mode a recall must name an id of the tenant's scope; an empty id and
   "default" are refused as such, anything else as a mismatch. Without it all pass.
   */
  lemma RecallIff(c: TenantContext, e: string)
    ensures EnforceRecallScope(c, e).Ok? <==>
            || !c.enabled
            || (c.tenantId.Some? && c.tenantId.value != "" && Below(c.tenantId.value, Trim(e)) && Trim(e) != "default")
    ensures EnforceRecallScope(c, e) == Err(DefaultForbidden) <==> c.enabled && (Trim(e) == "" || Trim(e) == "default")
  {
    hide Trim, InScope, Below;
    if c.tenantId.Some? {
      InScopeIff(c.tenantId.value, Trim(e));
      if c.tenantId.value != "" && Trim(e) == "" {
        EmptyIsNotBelow(c.tenantId.value);
      }
    }
  }

  predicate Accepts(tenant: string, e: string) {
    EnforceRecallScope(Enabled(tenant), e).Ok?
  }

  /** A tenant id that is empty or starts with white space may recall nothing. */
  lemma UnrootedAcceptsNothing(tenant: string, e: string)
    requires !Rooted(tenant)
    ensures !Accepts(tenant, e)
  {
    hide TrimStart, TrimEnd;
  }

  /** The scoped id may be recalled exactly below a rooted tenant, unless it is empty or becomes "default". */
  lemma ScopedIsAcceptedIff(tenant: string, e: string)
    ensures var id := ScopeEntityId(Enabled(tenant), e);
            Accepts(tenant, id) <==> Rooted(tenant) && Trim(e) != "" && id != "default"
  {
    hide Trim;
    var id := ScopeEntityId(Enabled(tenant), e);
    TrimTwice(e);
    RecallAcceptedIff(Enabled(tenant), id);
    if !Rooted(tenant) {
      UnrootedAcceptsNothing(tenant, id);
    } else if Trim(e) != "" {
      ScopedIdForm(tenant, e);
    }
  }

  /** One tenant id lies in the other's scope. */
  predicate Nested(s: string, t: string) {
    InScope(s, t) || InScope(t, s)
  }

  lemma CommonScope(s: string, t: string, id: string)
    requires InScope(s, id) && InScope(t, id)
    ensures Nested(s, t)
  {
    if |s| < |t| {
      assert t[..|s|] == id[..|t|][..|s|] == id[..|s|];
    } else if |t| < |s| {
      assert s[..|t|] == id[..|s|][..|t|] == id[..|t|];
    } else {
      assert s == id[..|s|] && t == id[..|t|];
    }
  }

  lemma AcceptsTrimmed(tenant: string, id: string)
    requires tenant != "" && InScope(tenant, id) && Trimmed(id) && id != "" && id != "default"
    ensures Accepts(tenant, id)
  {
    hide TrimStart, TrimEnd, InScope;
    TrimIdentity(id);
  }

  lemma InScopeBelow(s: string, t: string)
    requires InScope(s, t)
    ensures InScope(s, t + ":x") && InScope(t, t + ":x")
  {
    var id := t + ":x";
    assert id[..|t|] == t && id[|t|] == ':';
    assert id[..|s|] == t[..|s|];
  }

  lemma BelowBoth(s: string, t: string)
    requires Rooted(s) && Rooted(t) && InScope(s, t)
    ensures Accepts(s, t + ":x") && Accepts(t, t + ":x")
  {
    hide Trim, Accepts;
    InScopeBelow(s, t);
    hide InScope;
    var id := t + ":x";
    assert id[|id| - 2] == ':' && "default"[5] != ':';
    AcceptsTrimmed(s, id);
    AcceptsTrimmed(t, id);
  }

  /** Two tenants share an id they may recall exactly when both are rooted and one lies in the other's scope. */
  lemma SharedIdIff(s: string, t: string)
    ensures (exists e :: Accepts(s, e) && Accepts(t, e)) <==> Rooted(s) && Rooted(t) && (Below(s, t) || Below(t, s))
  {
    InScopeIff(s, t);
    InScopeIff(t, s);
    hide Trim, InScope, Below;
    if e :| Accepts(s, e) && Accepts(t, e) {
      if !Rooted(s) || !Rooted(t) {
        UnrootedAcceptsNothing(if Rooted(s) then t else s, e);
      } else {
        RecallAcceptedIff(Enabled(s), e);
        RecallAcceptedIff(Enabled(t), e);
        CommonScope(s, t, Trim(e));
      }
    }
    if Rooted(s) && Rooted(t) && InScope(s, t) {
      BelowBoth(s, t);
    } else if Rooted(s) && Rooted(t) && InScope(t, s) {
      BelowBoth(t, s);
    }
  }
}
