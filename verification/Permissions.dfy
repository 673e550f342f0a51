/**
 The permission store of src/security/permissions.rs: session grants, permanent
 grants, the records they come from and the file behind them. Entity ids are
 their strings; the risk class of a tool and the text of the clock are inputs.
 */
module Permissions {
  import opened Strings
  import opened Tenants

  datatype GrantScope = Session | Permanent

  datatype PermissionGrant = PermissionGrant(tool: string, pattern: string, scope: GrantScope)

  datatype StoredGrant = StoredGrant(
    tool: string,
    pattern: string,
    scope: GrantScope,
    grantedAt: string,
    grantedBy: string,
    entityId: Option<string>,
    tenantModeEnabled: Option<bool>,
    tenantId: Option<string>)

  datatype GrantSubject = GrantSubject(entityId: string, tenantModeEnabled: bool, tenantId: Option<string>)

  datatype ScopedGrant = ScopedGrant(grant: PermissionGrant, subject: GrantSubject)

  datatype GrantError = EmptyTool | EmptyPattern | EmptyEntity | HighRiskWildcard | NotInAllowlist | NotPersisted

  /** What is at the store path. */
  datatype StoreFile = Missing | Unreadable | Records(grants: seq<StoredGrant>)

  // ----- subjects and records -----

  function NormalizeTenantId(raw: Option<string>): Option<string> {
    if raw.Some? && Trim(raw.value) != "" then Some(Trim(raw.value)) else None
  }

  function SubjectFromContext(entityId: string, c: TenantContext): GrantSubject {
    GrantSubject(Trim(entityId), c.enabled, NormalizeTenantId(c.tenantId))
  }

  function SubjectFromStored(g: StoredGrant): Option<GrantSubject> {
    if g.entityId.Some? && Trim(g.entityId.value) != "" then
      var tenantId := NormalizeTenantId(g.tenantId);
      var mode := if g.tenantModeEnabled.Some? then g.tenantModeEnabled.value else tenantId.Some?;
      Some(GrantSubject(Trim(g.entityId.value), mode, tenantId))
    else None
  }

  function StoredToScoped(g: StoredGrant): Option<ScopedGrant> {
    var subject := SubjectFromStored(g);
    if subject.None? then None
    else Some(ScopedGrant(PermissionGrant(g.tool, g.pattern, g.scope), subject.value))
  }

  function RecordOf(g: ScopedGrant, now: string): StoredGrant {
    StoredGrant(g.grant.tool, g.grant.pattern, Permanent, now, g.subject.entityId,
                Some(g.subject.entityId), Some(g.subject.tenantModeEnabled), g.subject.tenantId)
  }

  /** `filter_map`: the grants that a list of records stands for. */
  function Image(records: seq<StoredGrant>): seq<ScopedGrant> {
    if records == [] then []
    else
      var init := Image(records[..|records| - 1]);
      var last := StoredToScoped(records[|records| - 1]);
      if last.Some? then init + [last.value] else init
  }

  /** Reading a record back gives the grant it was written for. */
  lemma RecordRoundTrip(g: PermissionGrant, entityId: string, c: TenantContext, now: string)
    requires g.scope == Permanent && Trim(entityId) != ""
    ensures var scoped := ScopedGrant(g, SubjectFromContext(entityId, c));
            StoredToScoped(RecordOf(scoped, now)) == Some(scoped)
    ensures var r := RecordOf(ScopedGrant(g, SubjectFromContext(entityId, c)), now);
            r.grantedAt == now && r.grantedBy == Trim(entityId) && r.scope == Permanent
  {
    hide Trim;
    TrimTwice(entityId);
    if c.tenantId.Some? {
      TrimTwice(c.tenantId.value);
    }
  }

  // ----- patterns -----

  predicate StartsWith(s: string, prefix: string) {
    prefix <= s
  }

  predicate PatternMatches(pattern: string, value: string) {
    if pattern == "*" then true
    else if |pattern| >= 2 && pattern[|pattern| - 2..] == " *" then
      var prefix := pattern[..|pattern| - 2];
      StartsWith(value, prefix) && |value| > |prefix| && value[|prefix|] == ' '
    else if pattern != "" && pattern[|pattern| - 1] == '*' then
      var prefix := pattern[..|pattern| - 1];
      if prefix == "" || prefix[|prefix| - 1] == ' ' || prefix[|prefix| - 1] == '/' || prefix[|prefix| - 1] == '\\'
      then StartsWith(value, prefix)
      else pattern == value
    else pattern == value
  }

  predicate IsBoundary(c: char) {
    c == ' ' || c == '/' || c == '\\'
  }

  /** A lone star, the value itself, or a prefix that ends at a word boundary in front of a star. */
  predicate PatternCovers(pattern: string, value: string) {
    || pattern == "*"
    || pattern == value
    || (|pattern| >= 2 && pattern[|pattern| - 1] == '*' && IsBoundary(pattern[|pattern| - 2])
        && pattern[..|pattern| - 1] <= value)
  }

  /** A star widens a pattern only behind a word boundary; without one a pattern means just itself. */
  lemma PatternMeaning(pattern: string, value: string)
    ensures PatternMatches(pattern, value) <==> PatternCovers(pattern, value)
  {
    if |pattern| >= 2 && pattern[|pattern| - 2..] == " *" {
      assert pattern[|pattern| - 2] == " *"[0] && pattern[|pattern| - 1] == " *"[1];
      var prefix := pattern[..|pattern| - 2];
      assert pattern[..|pattern| - 1] == prefix + " ";
      if |value| > |prefix| {
        assert value[..|prefix| + 1] == value[..|prefix|] + [value[|prefix|]];
      }
    }
  }

  // ----- the store -----

  datatype Store = Store(
    session: seq<ScopedGrant>,
    permanent: seq<ScopedGrant>,
    records: seq<StoredGrant>,
    allowlists: map<string, set<string>>,
    file: StoreFile)

  /** An unreadable file and one that cannot be parsed both load as no records. */
  function Load(file: StoreFile, writeOk: bool): Store {
    var records := if file.Records? then file.grants else [];
    Store([], Image(records), records, map[], if file.Missing? && writeOk then Records([]) else file)
  }

  function Check(s: Store, grant: PermissionGrant, subject: GrantSubject, highRisk: string -> bool)
    : Option<GrantError>
  {
    if Trim(grant.tool) == "" then Some(EmptyTool)
    else if Trim(grant.pattern) == "" then Some(EmptyPattern)
    else if subject.entityId == "" then Some(EmptyEntity)
    else if grant.pattern == "*" && highRisk(grant.tool) then Some(HighRiskWildcard)
    else if subject.entityId in s.allowlists && grant.tool !in s.allowlists[subject.entityId] then Some(NotInAllowlist)
    else None
  }

  /** The store after an `add_grant`, and its error. */
  function AfterAdd(s: Store, grant: PermissionGrant, entityId: string, c: TenantContext,
                    highRisk: string -> bool, now: string, writeOk: bool): (Store, Option<GrantError>)
  {
    var subject := SubjectFromContext(entityId, c);
    var refused := Check(s, grant, subject, highRisk);
    var scoped := ScopedGrant(grant, subject);
    if refused.Some? then (s, refused)
    else if grant.scope == Session then (s.(session := s.session + [scoped]), None)
    else if !writeOk then (s, Some(NotPersisted))
    else
      var next := s.records + [RecordOf(scoped, now)];
      (s.(records := next, permanent := s.permanent + [scoped], file := Records(next)), None)
  }

  function SetAllowlist(s: Store, entityId: string, allowlist: Option<set<string>>): Store {
    s.(allowlists := if allowlist.Some? then s.allowlists[entityId := allowlist.value] else s.allowlists - {entityId})
  }

  predicate Covers(g: ScopedGrant, tool: string, args: string, subject: GrantSubject) {
    g.grant.tool == tool && PatternMatches(g.grant.pattern, args) && g.subject == subject
  }

  predicate AnyCovers(grants: seq<ScopedGrant>, tool: string, args: string, subject: GrantSubject) {
    exists i :: 0 <= i < |grants| && Covers(grants[i], tool, args, subject)
  }

  /** What `is_granted` answers. */
  predicate Grants(s: Store, tool: string, args: string, entityId: string, c: TenantContext) {
    var subject := SubjectFromContext(entityId, c);
    AnyCovers(s.session, tool, args, subject) || AnyCovers(s.permanent, tool, args, subject)
  }

  class PermissionStore {
    var sessionGrants: seq<ScopedGrant>
    var permanentGrants: seq<ScopedGrant>
    var permanentRecords: seq<StoredGrant>
    var entityAllowlists: map<string, set<string>>
    var file: StoreFile

    ghost function View(): Store
      reads this
    {
      Store(sessionGrants, permanentGrants, permanentRecords, entityAllowlists, file)
    }

    constructor (file: StoreFile, writeOk: bool)
      ensures View() == Load(file, writeOk)
    {
      var records := if file.Records? then file.grants else [];
      var grants: seq<ScopedGrant> := [];
      for i := 0 to |records|
        invariant grants == Image(records[..i])
      {
        assert records[..i + 1][..i] == records[..i];
        var scoped := StoredToScoped(records[i]);
        if scoped.Some? {
          grants := grants + [scoped.value];
        }
      }
      assert records[..|records|] == records;
      this.sessionGrants := [];
      this.permanentGrants := grants;
      this.permanentRecords := records;
      this.entityAllowlists := map[];
      this.file := if file.Missing? && writeOk then Records([]) else file;
    }

    method SetEntityAllowlist(entityId: string, allowlist: Option<set<string>>)
      modifies this
      ensures View() == SetAllowlist(old(View()), entityId, allowlist)
    {
      match allowlist {
        case Some(tools) => entityAllowlists := entityAllowlists[entityId := tools];
        case None => entityAllowlists := entityAllowlists - {entityId};
      }
    }

    method AddGrant(grant: PermissionGrant, entityId: string, c: TenantContext,
                    highRisk: string -> bool, now: string, writeOk: bool) returns (error: Option<GrantError>)
      modifies this
      ensures (View(), error) == AfterAdd(old(View()), grant, entityId, c, highRisk, now, writeOk)
    {
      hide Trim;
      if Trim(grant.tool) == "" {
        return Some(EmptyTool);
      }
      if Trim(grant.pattern) == "" {
        return Some(EmptyPattern);
      }
      var subject := SubjectFromContext(entityId, c);
      if subject.entityId == "" {
        return Some(EmptyEntity);
      }
      if grant.pattern == "*" && highRisk(grant.tool) {
        return Some(HighRiskWildcard);
      }
      if subject.entityId in entityAllowlists && grant.tool !in entityAllowlists[subject.entityId] {
        return Some(NotInAllowlist);
      }
      match grant.scope {
        case Session =>
          sessionGrants := sessionGrants + [ScopedGrant(grant, subject)];
        case Permanent =>
          var nextRecords := permanentRecords + [RecordOf(ScopedGrant(grant, subject), now)];
          if !writeOk {
            return Some(NotPersisted);
          }
          file := Records(nextRecords);
          permanentRecords := nextRecords;
          permanentGrants := permanentGrants + [ScopedGrant(grant, subject)];
      }
      return None;
    }

    method IsGranted(tool: string, args: string, entityId: string, c: TenantContext) returns (granted: bool)
      ensures granted <==> Grants(View(), tool, args, entityId, c)
    {
      var subject := SubjectFromContext(entityId, c);
      if AnyCovers(sessionGrants, tool, args, subject) {
        return true;
      }
      granted := AnyCovers(permanentGrants, tool, args, subject);
    }
  }

  // ----- every run -----

  datatype Call =
    | AddCall(grant: PermissionGrant, entityId: string, context: TenantContext, now: string, writeOk: bool)
    | AllowlistCall(entityId: string, allowlist: Option<set<string>>)

  function Next(s: Store, call: Call, highRisk: string -> bool): Store {
    match call
    case AddCall(grant, entityId, c, now, writeOk) => AfterAdd(s, grant, entityId, c, highRisk, now, writeOk).0
    case AllowlistCall(entityId, allowlist) => SetAllowlist(s, entityId, allowlist)
  }

  function Run(s: Store, calls: seq<Call>, highRisk: string -> bool): Store
    decreases |calls|
  {
    if calls == [] then s else Run(Next(s, calls[0], highRisk), calls[1..], highRisk)
  }

  /** The grants are the image of the records, and the file holds the records. */
  predicate Consistent(s: Store) {
    s.permanent == Image(s.records) && s.file == Records(s.records)
  }

  lemma ImageOfOneMore(records: seq<StoredGrant>, r: StoredGrant)
    ensures Image(records + [r]) ==
            Image(records) + (if StoredToScoped(r).Some? then [StoredToScoped(r).value] else [])
  {
    hide StoredToScoped;
    assert (records + [r])[..|records + [r]| - 1] == records;
  }

  lemma StepKeepsConsistent(s: Store, call: Call, highRisk: string -> bool)
    requires Consistent(s)
    ensures Consistent(Next(s, call, highRisk))
  {
    hide Trim, Image, StoredToScoped, RecordOf;
    if call.AddCall? && call.grant.scope == Permanent && Trim(call.entityId) != "" {
      var scoped := ScopedGrant(call.grant, SubjectFromContext(call.entityId, call.context));
      RecordRoundTrip(call.grant, call.entityId, call.context, call.now);
      ImageOfOneMore(s.records, RecordOf(scoped, call.now));
    }
  }

  lemma {:induction false} RunKeepsConsistent(s: Store, calls: seq<Call>, highRisk: string -> bool)
    requires Consistent(s)
    ensures Consistent(Run(s, calls, highRisk))
    decreases |calls|
  {
    hide Next, Consistent;
    if calls != [] {
      StepKeepsConsistent(s, calls[0], highRisk);
      RunKeepsConsistent(Next(s, calls[0], highRisk), calls[1..], highRisk);
    }
  }

  /** A load that reads a file, or creates a missing one, starts consistent; the other loads do not. */
  lemma LoadIsConsistentIff(file: StoreFile, writeOk: bool)
    ensures Consistent(Load(file, writeOk)) <==> file.Records? || (file.Missing? && writeOk)
  {
  }

  /** After any run, a restart answers as before, with the session grants left out. */
  lemma RestartKeepsPermanentGrants(file: StoreFile, writeOk: bool, calls: seq<Call>, highRisk: string -> bool,
                                    writeOk': bool,
                                    tool: string, args: string, entityId: string, c: TenantContext)
    requires file.Records? || (file.Missing? && writeOk)
    ensures var s := Run(Load(file, writeOk), calls, highRisk);
            Grants(Load(s.file, writeOk'), tool, args, entityId, c) <==>
            Grants(s.(session := []), tool, args, entityId, c)
  {
    hide Run, AnyCovers;
    LoadIsConsistentIff(file, writeOk);
    RunKeepsConsistent(Load(file, writeOk), calls, highRisk);
  }

  // ----- who is granted what -----

  /** When a grant is taken, in terms of the ids as they are given. */
  predicate Admitted(s: Store, call: Call, highRisk: string -> bool) {
    && call.AddCall?
    && Trim(call.grant.tool) != "" && Trim(call.grant.pattern) != "" && Trim(call.entityId) != ""
    && !(call.grant.pattern == "*" && highRisk(call.grant.tool))
    && (Trim(call.entityId) in s.allowlists ==> call.grant.tool in s.allowlists[Trim(call.entityId)])
    && (call.grant.scope == Permanent ==> call.writeOk)
  }

  /** An admitted grant is taken; any other is an error and changes nothing. */
  lemma GrantTakenIff(s: Store, call: Call, highRisk: string -> bool)
    requires call.AddCall?
    ensures AfterAdd(s, call.grant, call.entityId, call.context, highRisk, call.now, call.writeOk).1.None?
       <==> Admitted(s, call, highRisk)
    ensures !Admitted(s, call, highRisk) ==> Next(s, call, highRisk) == s
  {
    hide Trim, RecordOf;
  }

  lemma StarIsBare()
    ensures Trim("*") == "*"
  {
    TrimIdentity("*");
  }

  /** The first condition that a grant misses is the error: the texts, the risk, the allowlist, the write. */
  lemma RefusalIs(s: Store, call: Call, highRisk: string -> bool)
    requires call.AddCall?
    ensures var (tool, pattern, entity) := (Trim(call.grant.tool), Trim(call.grant.pattern), Trim(call.entityId));
            var error := AfterAdd(s, call.grant, call.entityId, call.context, highRisk, call.now, call.writeOk).1;
            && (error == Some(EmptyTool) <==> tool == "")
            && (error == Some(EmptyPattern) <==> tool != "" && pattern == "")
            && (error == Some(EmptyEntity) <==> tool != "" && pattern != "" && entity == "")
            && (error == Some(HighRiskWildcard) <==>
                  tool != "" && entity != "" && call.grant.pattern == "*" && highRisk(call.grant.tool))
            && (error == Some(NotInAllowlist) <==>
                  && tool != "" && pattern != "" && entity != ""
                  && !(call.grant.pattern == "*" && highRisk(call.grant.tool))
                  && entity in s.allowlists && call.grant.tool !in s.allowlists[entity])
            && (error == Some(NotPersisted) ==> call.grant.scope == Permanent && !call.writeOk)
  {
    hide Trim, RecordOf;
    StarIsBare();
  }

  // ----- the subject, in terms of the ids as they are given -----

  predicate NoTenantId(id: Option<string>) {
    id.None? || Trim(id.value) == ""
  }

  predicate SameTenantId(a: Option<string>, b: Option<string>) {
    || (NoTenantId(a) && NoTenantId(b))
    || (!NoTenantId(a) && !NoTenantId(b) && Trim(a.value) == Trim(b.value))
  }

  /** Same entity, same tenant mode, same tenant, up to white space around the ids. */
  predicate SameCaller(e: string, c: TenantContext, e': string, c': TenantContext) {
    Trim(e) == Trim(e') && c.enabled == c'.enabled && SameTenantId(c.tenantId, c'.tenantId)
  }

  lemma SubjectsAgreeIff(e: string, c: TenantContext, e': string, c': TenantContext)
    ensures SubjectFromContext(e, c) == SubjectFromContext(e', c') <==> SameCaller(e, c, e', c')
  {
    hide Trim;
  }

  /** The call adds a grant that covers this use by this caller. */
  predicate GrantsTo(call: Call, tool: string, args: string, e: string, c: TenantContext) {
    && call.AddCall?
    && call.grant.tool == tool && PatternCovers(call.grant.pattern, args)
    && SameCaller(call.entityId, call.context, e, c)
  }

  lemma GrantsToIff(call: Call, tool: string, args: string, e: string, c: TenantContext)
    requires call.AddCall?
    ensures GrantsTo(call, tool, args, e, c) <==>
            Covers(ScopedGrant(call.grant, SubjectFromContext(call.entityId, call.context)), tool, args,
                   SubjectFromContext(e, c))
  {
    hide Trim, PatternMatches, PatternCovers, SubjectFromContext, SameCaller;
    PatternMeaning(call.grant.pattern, args);
    SubjectsAgreeIff(call.entityId, call.context, e, c);
  }

  /** A record grants to its entity only; without a tenant flag the tenant id decides the mode. */
  predicate RecordGrants(r: StoredGrant, tool: string, args: string, e: string, c: TenantContext) {
    && r.tool == tool && PatternCovers(r.pattern, args)
    && r.entityId.Some? && Trim(r.entityId.value) != "" && Trim(r.entityId.value) == Trim(e)
    && (if r.tenantModeEnabled.Some? then c.enabled == r.tenantModeEnabled.value
        else c.enabled == !NoTenantId(r.tenantId))
    && SameTenantId(r.tenantId, c.tenantId)
  }

  lemma RecordGrantsIff(r: StoredGrant, tool: string, args: string, e: string, c: TenantContext)
    ensures RecordGrants(r, tool, args, e, c) <==>
            StoredToScoped(r).Some? && Covers(StoredToScoped(r).value, tool, args, SubjectFromContext(e, c))
  {
    hide Trim, PatternMatches, PatternCovers;
    PatternMeaning(r.pattern, args);
  }

  lemma CoversAppended(grants: seq<ScopedGrant>, g: ScopedGrant, tool: string, args: string, subject: GrantSubject)
    ensures AnyCovers(grants + [g], tool, args, subject)
       <==> AnyCovers(grants, tool, args, subject) || Covers(g, tool, args, subject)
  {
    hide Covers;
    if AnyCovers(grants, tool, args, subject) {
      var i :| 0 <= i < |grants| && Covers(grants[i], tool, args, subject);
      assert (grants + [g])[i] == grants[i];
    }
    assert (grants + [g])[|grants|] == g;
  }

  ghost predicate SomeRecordGrants(records: seq<StoredGrant>, tool: string, args: string, e: string, c: TenantContext) {
    exists i :: 0 <= i < |records| && RecordGrants(records[i], tool, args, e, c)
  }

  lemma NothingCovers(tool: string, args: string, subject: GrantSubject)
    ensures !AnyCovers([], tool, args, subject)
  {
  }

  lemma {:induction false} ImageCoversIff(records: seq<StoredGrant>, tool: string, args: string,
                                          e: string, c: TenantContext)
    ensures AnyCovers(Image(records), tool, args, SubjectFromContext(e, c))
       <==> SomeRecordGrants(records, tool, args, e, c)
    decreases |records|
  {
    hide RecordGrants, StoredToScoped, Covers, AnyCovers, SubjectFromContext;
    if records == [] {
      NothingCovers(tool, args, SubjectFromContext(e, c));
    } else {
      var init, last := records[..|records| - 1], records[|records| - 1];
      ImageCoversIff(init, tool, args, e, c);
      RecordGrantsIff(last, tool, args, e, c);
      if StoredToScoped(last).Some? {
        CoversAppended(Image(init), StoredToScoped(last).value, tool, args, SubjectFromContext(e, c));
      }
      if i :| 0 <= i < |init| && RecordGrants(init[i], tool, args, e, c) {
        assert records[i] == init[i];
      }
      if i :| 0 <= i < |records| && RecordGrants(records[i], tool, args, e, c) {
        assert i < |init| ==> init[i] == records[i];
      }
    }
  }

  // ----- who is granted what -----

  /** What the permanent grants cover, and the session grants too if asked for. */
  predicate Covered(s: Store, permanentOnly: bool, tool: string, args: string, e: string, c: TenantContext) {
    var subject := SubjectFromContext(e, c);
    AnyCovers(s.permanent, tool, args, subject) || (!permanentOnly && AnyCovers(s.session, tool, args, subject))
  }

  /** A grant of the asked kind that is admitted and covers the use. */
  predicate Adds(s: Store, call: Call, highRisk: string -> bool, permanentOnly: bool,
                 tool: string, args: string, e: string, c: TenantContext)
  {
    && Admitted(s, call, highRisk) && GrantsTo(call, tool, args, e, c)
    && (permanentOnly ==> call.grant.scope == Permanent)
  }

  lemma OnlyAddsAdmit(s: Store, call: Call, highRisk: string -> bool)
    ensures Admitted(s, call, highRisk) ==> call.AddCall?
  {
  }

  lemma StepCovers(s: Store, call: Call, highRisk: string -> bool, permanentOnly: bool,
                   tool: string, args: string, e: string, c: TenantContext)
    ensures Covered(Next(s, call, highRisk), permanentOnly, tool, args, e, c)
       <==> Covered(s, permanentOnly, tool, args, e, c) || Adds(s, call, highRisk, permanentOnly, tool, args, e, c)
  {
    hide Trim, PatternMatches, RecordOf, Covers, AnyCovers, Check, Admitted, GrantsTo, SubjectFromContext;
    if call.AddCall? {
      var scoped := ScopedGrant(call.grant, SubjectFromContext(call.entityId, call.context));
      var subject := SubjectFromContext(e, c);
      GrantTakenIff(s, call, highRisk);
      GrantsToIff(call, tool, args, e, c);
      CoversAppended(s.session, scoped, tool, args, subject);
      CoversAppended(s.permanent, scoped, tool, args, subject);
    } else {
      OnlyAddsAdmit(s, call, highRisk);
    }
  }

  /**
   A call changes what is granted only if it adds an admitted grant, and then by
   the uses its pattern covers of its tool, by its entity in its tenant. A grant
   that is refused or cannot be saved changes nothing at all.
   */
  lemma GrantedToItsSubjectOnly(s: Store, call: Call, highRisk: string -> bool,
                                tool: string, args: string, e: string, c: TenantContext)
    ensures Grants(Next(s, call, highRisk), tool, args, e, c)
       <==> Grants(s, tool, args, e, c) || (Admitted(s, call, highRisk) && GrantsTo(call, tool, args, e, c))
    ensures call.AddCall? && !Admitted(s, call, highRisk) ==> Next(s, call, highRisk) == s
  {
    hide AnyCovers, SubjectFromContext, Admitted, GrantsTo, Next;
    StepCovers(s, call, highRisk, false, tool, args, e, c);
    if call.AddCall? {
      GrantTakenIff(s, call, highRisk);
    }
  }

  ghost predicate AddedAt(s: Store, calls: seq<Call>, i: nat, highRisk: string -> bool, permanentOnly: bool,
                          tool: string, args: string, e: string, c: TenantContext)
    requires i < |calls|
  {
    Adds(Run(s, calls[..i], highRisk), calls[i], highRisk, permanentOnly, tool, args, e, c)
  }

  /** Some call of the run adds such a grant. */
  ghost predicate AddedWithin(s: Store, calls: seq<Call>, highRisk: string -> bool, permanentOnly: bool,
                              tool: string, args: string, e: string, c: TenantContext)
  {
    exists i :: 0 <= i < |calls| && AddedAt(s, calls, i, highRisk, permanentOnly, tool, args, e, c)
  }

  lemma AddedLater(s: Store, calls: seq<Call>, i: nat, highRisk: string -> bool, permanentOnly: bool,
                   tool: string, args: string, e: string, c: TenantContext)
    requires i + 1 < |calls|
    ensures AddedAt(s, calls, i + 1, highRisk, permanentOnly, tool, args, e, c)
       <==> AddedAt(Next(s, calls[0], highRisk), calls[1..], i, highRisk, permanentOnly, tool, args, e, c)
  {
    hide Next, Adds;
    assert calls[..i + 1][1..] == calls[1..][..i];
  }

  lemma {:induction false} RunCovers(s: Store, calls: seq<Call>, highRisk: string -> bool, permanentOnly: bool,
                                     tool: string, args: string, e: string, c: TenantContext)
    ensures Covered(Run(s, calls, highRisk), permanentOnly, tool, args, e, c)
       <==> Covered(s, permanentOnly, tool, args, e, c)
            || AddedWithin(s, calls, highRisk, permanentOnly, tool, args, e, c)
    decreases |calls|
  {
    hide Next, Adds, Covered;
    if calls != [] {
      var next := Next(s, calls[0], highRisk);
      StepCovers(s, calls[0], highRisk, permanentOnly, tool, args, e, c);
      RunCovers(next, calls[1..], highRisk, permanentOnly, tool, args, e, c);
      assert calls[..0] == [];
      assert AddedAt(s, calls, 0, highRisk, permanentOnly, tool, args, e, c)
        <==> Adds(s, calls[0], highRisk, permanentOnly, tool, args, e, c);
      forall i | 0 <= i < |calls| - 1
        ensures AddedAt(s, calls, i + 1, highRisk, permanentOnly, tool, args, e, c)
           <==> AddedAt(next, calls[1..], i, highRisk, permanentOnly, tool, args, e, c)
      {
        AddedLater(s, calls, i, highRisk, permanentOnly, tool, args, e, c);
      }
      if i :| 0 <= i < |calls| && AddedAt(s, calls, i, highRisk, permanentOnly, tool, args, e, c) {
        if i > 0 {
          assert AddedAt(next, calls[1..], i - 1, highRisk, permanentOnly, tool, args, e, c);
        }
      }
      if i :| 0 <= i < |calls[1..]| && AddedAt(next, calls[1..], i, highRisk, permanentOnly, tool, args, e, c) {
        assert AddedAt(s, calls, i + 1, highRisk, permanentOnly, tool, args, e, c);
      }
    }
  }

  /** What a load grants: nothing but what its records do. */
  lemma LoadGrantsIff(file: StoreFile, writeOk: bool, permanentOnly: bool,
                      tool: string, args: string, e: string, c: TenantContext)
    ensures Covered(Load(file, writeOk), permanentOnly, tool, args, e, c)
       <==> file.Records? && SomeRecordGrants(file.grants, tool, args, e, c)
  {
    hide AnyCovers, SubjectFromContext, RecordGrants;
    NothingCovers(tool, args, SubjectFromContext(e, c));
    if file.Records? {
      ImageCoversIff(file.grants, tool, args, e, c);
    }
  }

  /** After any run exactly those uses are granted that a loaded record or an admitted grant of the run covers. */
  lemma GrantedAfterRunIff(file: StoreFile, writeOk: bool, calls: seq<Call>, highRisk: string -> bool,
                           tool: string, args: string, e: string, c: TenantContext)
    ensures Grants(Run(Load(file, writeOk), calls, highRisk), tool, args, e, c)
       <==> (file.Records? && SomeRecordGrants(file.grants, tool, args, e, c))
            || AddedWithin(Load(file, writeOk), calls, highRisk, false, tool, args, e, c)
  {
    hide AnyCovers, SubjectFromContext, Run, AddedWithin, SomeRecordGrants, Load;
    RunCovers(Load(file, writeOk), calls, highRisk, false, tool, args, e, c);
    LoadGrantsIff(file, writeOk, false, tool, args, e, c);
  }

  /** After a restart exactly those that a loaded record or an admitted permanent grant of the run covers. */
  lemma GrantedAfterRestartIff(file: StoreFile, writeOk: bool, calls: seq<Call>, highRisk: string -> bool,
                               writeOk': bool, tool: string, args: string, e: string, c: TenantContext)
    requires file.Records? || (file.Missing? && writeOk)
    ensures Grants(Load(Run(Load(file, writeOk), calls, highRisk).file, writeOk'), tool, args, e, c)
       <==> (file.Records? && SomeRecordGrants(file.grants, tool, args, e, c))
            || AddedWithin(Load(file, writeOk), calls, highRisk, true, tool, args, e, c)
  {
    hide AnyCovers, SubjectFromContext, Run, AddedWithin, SomeRecordGrants, Load;
    RestartKeepsPermanentGrants(file, writeOk, calls, highRisk, writeOk', tool, args, e, c);
    NothingCovers(tool, args, SubjectFromContext(e, c));
    RunCovers(Load(file, writeOk), calls, highRisk, true, tool, args, e, c);
    LoadGrantsIff(file, writeOk, true, tool, args, e, c);
  }

  // ----- allowlists -----

  function AllowlistOf(s: Store, e: string): Option<set<string>> {
    if e in s.allowlists then Some(s.allowlists[e]) else None
  }

  lemma StepOnAllowlist(s: Store, call: Call, highRisk: string -> bool, e: string)
    ensures AllowlistOf(Next(s, call, highRisk), e)
         == if call.AllowlistCall? && call.entityId == e then call.allowlist else AllowlistOf(s, e)
  {
    hide Check, SubjectFromContext, RecordOf;
  }

  lemma {:induction false} NoAllowlistCall(s: Store, calls: seq<Call>, highRisk: string -> bool, e: string)
    requires forall j :: 0 <= j < |calls| ==> !(calls[j].AllowlistCall? && calls[j].entityId == e)
    ensures AllowlistOf(Run(s, calls, highRisk), e) == AllowlistOf(s, e)
    decreases |calls|
  {
    hide Next, AllowlistOf;
    if calls != [] {
      StepOnAllowlist(s, calls[0], highRisk, e);
      NoAllowlistCall(Next(s, calls[0], highRisk), calls[1..], highRisk, e);
    }
  }

  /** The last call that sets or clears an entity's allowlist decides what it is. */
  lemma {:induction false} LastAllowlistCounts(s: Store, calls: seq<Call>, highRisk: string -> bool, k: nat, e: string)
    requires k < |calls| && calls[k].AllowlistCall? && calls[k].entityId == e
    requires forall j :: k < j < |calls| ==> !(calls[j].AllowlistCall? && calls[j].entityId == e)
    ensures AllowlistOf(Run(s, calls, highRisk), e) == calls[k].allowlist
    decreases |calls|
  {
    hide Next, AllowlistOf;
    StepOnAllowlist(s, calls[0], highRisk, e);
    if k == 0 {
      NoAllowlistCall(Next(s, calls[0], highRisk), calls[1..], highRisk, e);
    } else {
      LastAllowlistCounts(Next(s, calls[0], highRisk), calls[1..], highRisk, k - 1, e);
    }
  }
}
