/** The session settings of a pooled Postgres connection under the transaction helpers of
    dbpool/pool.go and the bus transaction of eventbus/postgres.go. */
module DbPool {
  import opened Option

  /** The role in force (None: the connecting user), app.tenant_id and row_security. */
  datatype Settings = Settings(role: Option<string>, tenant: string, rowSecurity: bool)

  const DEFAULT_ROLE := "omur_app"

  /** The role WithTenant sets: the pool's own, or the historical default for a pool without one. */
  function RoleForPool(poolRole: string): string {
    if poolRole != "" then poolRole else DEFAULT_ROLE
  }

  /** What AfterConnect leaves on a fresh connection. */
  function Connected(poolRole: string): Settings {
    Settings(if poolRole != "" then Some(poolRole) else None, "", true)
  }

  // ---------------------------------------------------------------- what helper calls ask for and leave

  datatype Call = Tenant(tenant: string) | TenantQuery(tenant: string) | Super | Privileged(role: string) | Bus

  datatype Use = Use(call: Call, cut: nat)

  /** The role a committed call leaves on the session, if it leaves one. */
  function Leaves(poolRole: string, u: Use): Option<Option<string>> {
    match u.call
    case Tenant(_) => if u.cut > 4 then Some(Some(RoleForPool(poolRole))) else None
    case TenantQuery(_) => None
    case Super => if u.cut > 3 then Some(None) else None
    case Privileged(_) => None
    case Bus => if u.cut > 4 then Some(None) else None
  }

  /** The idle role: that of the last call that left one, else the connect-time role. */
  function IdleRole(poolRole: string, uses: seq<Use>): Option<string> {
    if uses == [] then Connected(poolRole).role
    else match Leaves(poolRole, uses[|uses| - 1])
      case Some(role) => role
      case None => IdleRole(poolRole, uses[..|uses| - 1])
  }

  /** The settings a callback must see, whatever transactions came before. */
  function Asked(poolRole: string, call: Call): Settings {
    match call
    case Tenant(t) => Settings(Some(if poolRole == "" then "omur_app" else poolRole), t, true)
    case TenantQuery(t) => Settings(Some(if poolRole == "" then "omur_app" else poolRole), t, true)
    case Super => Settings(None, "", true)
    case Privileged(r) => Settings(Some(r), "", true)
    case Bus => Settings(None, "", false)
  }

  /** What the callback runs under, if the statements before it succeed. */
  function Observed(poolRole: string, u: Use): Option<Settings> {
    var before := if u.call.Super? || u.call.Privileged? then 2 else 3;
    if u.cut >= before then Some(Asked(poolRole, u.call)) else None
  }

  // ---------------------------------------------------------------- the connection

  /** A connection: the settings of the idle session and, inside a transaction, those in force now
      and those a commit would leave.  A statement that fails changes nothing. */
  class Connection {
    var idle: Settings
    var inTx: bool
    var live: Settings
    var onCommit: Settings

    constructor (poolRole: string)
      ensures !inTx && idle == Connected(poolRole)
    {
      idle, inTx := Connected(poolRole), false;
      live, onCommit := Connected(poolRole), Connected(poolRole);
    }

    method Begin()
      requires !inTx
      modifies this
      ensures inTx && idle == old(idle) && live == onCommit == idle
    {
      inTx, live, onCommit := true, idle, idle;
    }

    /** SET ROLE, or RESET ROLE for None: in force now and after a commit. */
    method SetRole(role: Option<string>)
      requires inTx
      modifies this`live, this`onCommit
      ensures live == old(live).(role := role) && onCommit == old(onCommit).(role := role)
    {
      live, onCommit := live.(role := role), onCommit.(role := role);
    }

    /** SET LOCAL ROLE: in force until the transaction ends. */
    method SetLocalRole(role: string)
      requires inTx
      modifies this`live
      ensures live == old(live).(role := Some(role))
    {
      live := live.(role := Some(role));
    }

    /** set_config('app.tenant_id', tenant, true). */
    method SetLocalTenant(tenant: string)
      requires inTx
      modifies this`live
      ensures live == old(live).(tenant := tenant)
    {
      live := live.(tenant := tenant);
    }

    /** SET LOCAL row_security = off. */
    method SetLocalRowSecurityOff()
      requires inTx
      modifies this`live
      ensures live == old(live).(rowSecurity := false)
    {
      live := live.(rowSecurity := false);
    }

    method Commit()
      requires inTx
      modifies this
      ensures !inTx && idle == old(onCommit)
    {
      inTx, idle := false, onCommit;
    }

    /** The deferred Rollback; it does nothing after a commit. */
    method Rollback()
      modifies this`inTx
      ensures !inTx
    {
      inTx := false;
    }

    /** WithTenant, or WithTenantQuery when it does not commit.  The statement numbered `cut` fails,
        the callback being number 3; `seen` is what the callback ran under. */
    method WithTenant(poolRole: string, tenant: string, commits: bool, cut: nat) returns (seen: Option<Settings>)
      requires !inTx
      modifies this
      ensures !inTx
      ensures idle == if commits && cut > 4 then old(idle).(role := Some(RoleForPool(poolRole))) else old(idle)
      ensures seen == if cut >= 3 then Some(old(idle).(role := Some(RoleForPool(poolRole)), tenant := tenant)) else None
    {
      seen := None;
      if cut == 0 { return; }
      Begin();
      if cut == 1 { Rollback(); return; }
      SetRole(Some(RoleForPool(poolRole)));
      if cut == 2 { Rollback(); return; }
      SetLocalTenant(tenant);
      seen := Some(live);
      if cut == 3 || !commits { Rollback(); return; }
      if cut == 4 { Rollback(); return; }
      Commit();
      Rollback();
    }

    /** Superuser; the callback is statement 2. */
    method Superuser(cut: nat) returns (seen: Option<Settings>)
      requires !inTx
      modifies this
      ensures !inTx
      ensures idle == if cut > 3 then old(idle).(role := None) else old(idle)
      ensures seen == if cut >= 2 then Some(old(idle).(role := None)) else None
    {
      seen := None;
      if cut == 0 { return; }
      Begin();
      if cut == 1 { Rollback(); return; }
      SetRole(None);
      seen := Some(live);
      if cut <= 3 { Rollback(); return; }
      Commit();
      Rollback();
    }

    /** WithPrivilegedRole; the callback is statement 2. */
    method WithPrivilegedRole(role: string, cut: nat) returns (seen: Option<Settings>)
      requires !inTx
      modifies this
      ensures !inTx && idle == old(idle)
      ensures seen == if cut >= 2 then Some(old(idle).(role := Some(role))) else None
    {
      seen := None;
      if cut == 0 { return; }
      Begin();
      if cut == 1 { Rollback(); return; }
      SetLocalRole(role);
      seen := Some(live);
      if cut <= 3 { Rollback(); return; }
      Commit();
      Rollback();
    }

    /** withBusRole; the callback is statement 3. */
    method WithBusRole(cut: nat) returns (seen: Option<Settings>)
      requires !inTx
      modifies this
      ensures !inTx
      ensures idle == if cut > 4 then old(idle).(role := None) else old(idle)
      ensures seen == if cut >= 3 then Some(old(idle).(role := None, rowSecurity := false)) else None
    {
      seen := None;
      if cut == 0 { return; }
      Begin();
      if cut == 1 { Rollback(); return; }
      SetRole(None);
      if cut == 2 { Rollback(); return; }
      SetLocalRowSecurityOff();
      seen := Some(live);
      if cut <= 4 { Rollback(); return; }
      Commit();
      Rollback();
    }

    /** Any sequence of helper calls sharing the connection, each cut wherever it may be: app.tenant_id
        and row_security never outlive their transaction, the idle role is the one the last committed
        role-setting call left, and every callback that runs does so under exactly the settings asked
        for. */
    method Serve(poolRole: string, uses: seq<Use>) returns (seen: seq<Option<Settings>>)
      requires !inTx && idle == Connected(poolRole)
      modifies this
      ensures !inTx && idle == Settings(IdleRole(poolRole, uses), "", true)
      ensures |seen| == |uses|
      ensures forall i :: 0 <= i < |uses| ==> seen[i] == Observed(poolRole, uses[i])
    {
      seen := [];
      assert uses[..0] == [];
      for i := 0 to |uses|
        invariant !inTx && idle == Settings(IdleRole(poolRole, uses[..i]), "", true)
        invariant |seen| == i
        invariant forall j :: 0 <= j < i ==> seen[j] == Observed(poolRole, uses[j])
      {
        var s: Option<Settings>;
        match uses[i].call {
          case Tenant(t) => s := WithTenant(poolRole, t, true, uses[i].cut);
          case TenantQuery(t) => s := WithTenant(poolRole, t, false, uses[i].cut);
          case Super => s := Superuser(uses[i].cut);
          case Privileged(r) => s := WithPrivilegedRole(r, uses[i].cut);
          case Bus => s := WithBusRole(uses[i].cut);
        }
        seen := seen + [s];
        assert uses[..i + 1][..i] == uses[..i];
      }
      assert uses[..|uses|] == uses;
    }
  }

  // ---------------------------------------------------------------- the pool's role

  /** The last committed call that sets a session role was a superuser or a bus transaction. */
  predicate LastCommitResets(uses: seq<Use>) {
    uses != []
    && var u := uses[|uses| - 1];
       ((u.call.Super? && u.cut > 3) || (u.call.Bus? && u.cut > 4)
        || (!(u.call.Tenant? && u.cut > 4) && LastCommitResets(uses[..|uses| - 1])))
  }

  /** A pool built with a role does not keep it on idle connections: it is gone exactly after a
      committed superuser or bus transaction, until a WithTenant commits. */
  lemma {:induction false} IdleKeepsPoolRole(poolRole: string, uses: seq<Use>)
    requires poolRole != ""
    ensures IdleRole(poolRole, uses) == Some(poolRole) <==> !LastCommitResets(uses)
    ensures LastCommitResets(uses) ==> IdleRole(poolRole, uses) == None
    decreases |uses|
  {
    if uses == [] {
    } else {
      IdleKeepsPoolRole(poolRole, uses[..|uses| - 1]);
    }
  }

  lemma SuperuserDropsPoolRole()
    ensures IdleRole("app", [Use(Super, 4)]) == None
  {}
}
