/**
 * `Config\Util\Ldap\Connection`: the decisions the connection takes around the
 * native LDAP extension. Every native call (`ldap_connect`, `ldap_start_tls`,
 * `ldap_bind`, `ldap_unbind`, `ldap_add`, `ldap_mod_*`, `ldap_delete`,
 * `ldap_read`/`ldap_list`/`ldap_search` and the `next()` of the search it
 * wraps) is replaced by a parameter that says how the call went; the methods
 * report the call they would issue. Exceptions become `Fail`/`Err` values
 * carrying the exception's kind.
 */
module LdapConnection {
  import opened Php

  const SecurityTls: string := "tls"
  const SecuritySsl: string := "ssl"

  /** The port `ldap_connect` uses by default and the one of LDAP over SSL. */
  const LdapPort: int := 389
  const LdapsPort: int := 636

  /** `ldap_errno` values that `search` singles out. */
  const ErrnoNoSuchObject: int := 32
  const ErrnoSizeLimitExceeded: int := 4
  const ErrnoFilterError: int := 87

  /** The filter `getEntry` uses when none is given. */
  const DefaultFilter: string := "(objectclass=*)"

  /** The exception kinds of `Config\Util\Ldap\Exception`. */
  datatype LdapError =
    | ConnectionError
    | OptionError
    | BindError
    | PersistenceError
    | NoResult
    | SizeLimit
    | MalformedFilter
    | SearchError
    | NodeNotFound
    | NotBound

  /** A void method either returns or throws. */
  datatype Outcome = Pass | Fail(error: LdapError)

  /** The `$scope` argument of `search`: none, one of the interface's three constants, or anything else. */
  datatype Scope = NoScope | ScopeBase | ScopeOne | ScopeAll | OtherScope(name: string)

  /** The native search function `search` dispatches to. */
  datatype SearchFunction = LdapRead | LdapList | LdapSearch

  /** The link `ldap_connect` opened. */
  datatype Link = Link(host: string, port: int, tls: bool)

  /** A native write and its arguments. */
  datatype Request =
    | Add(dn: string, data: Tree)
    | Delete(dn: string)
    | ModAdd(dn: string, data: Tree)
    | ModReplace(dn: string, data: Tree)
    | ModDelete(dn: string, data: Tree)

  /** A native search call and the parameters passed to it. */
  datatype SearchCall = SearchCall(native: SearchFunction, baseDn: string, filter: string, attributes: Option<seq<string>>)

  /** How a native search went: it returned false with an errno, or a result with these entries (as attribute arrays). */
  datatype NativeSearch = Failed(errno: int) | Answered(entries: seq<Tree>)

  /** The `Search` object `search` returns: the call made and what the directory answered. */
  datatype SearchHandle = SearchHandle(call: SearchCall, entries: seq<Tree>)

  /* ------------------------------------------------------ pure decisions */

  /**
   * The constructor's port: an explicit port is kept, otherwise 636 for SSL and
   * 389 else. The ensures is the source's decision table, case by case.
   */
  function DefaultPort(port: Option<int>, security: Option<string>): (p: int)
    ensures port.Some? ==> p == port.value
    ensures port.None? ==> (p == LdapsPort <==> security == Some(SecuritySsl))
    ensures port.None? ==> p in {LdapPort, LdapsPort}
  {
    match port
    case Some(p) => p
    case None => if security == Some(SecuritySsl) then LdapsPort else LdapPort
  }

  /** The host given to `ldap_connect`: prefixed with the `ldaps://` scheme for SSL. */
  function ConnectHost(hostname: string, security: Option<string>): string
  {
    if security == Some(SecuritySsl) then "ldaps://" + hostname else hostname
  }

  /**
   * The argument check of `bind`: both or neither of `rdn` and `password` must
   * be null; the value is whether the binding is anonymous.
   */
  function BindArguments(rdn: Option<string>, password: Option<string>): (r: Result<bool, LdapError>)
    ensures r.Err? <==> (rdn.None? != password.None?)
    ensures r.Err? ==> r.error == BindError
    ensures r.Ok? ==> (r.value <==> rdn.None? && password.None?)
  {
    if rdn.None? || password.None? then
      if rdn.Some? || password.Some? then Err(BindError) else Ok(true)
    else Ok(false)
  }

  /** `validateBinding`: the gate in front of every operation but `connect` and `bind`. */
  function ValidateBinding(bound: bool): Outcome
  {
    if bound then Pass else Fail(NotBound)
  }

  /** The `switch ($scope)` of `search`; the ensures is its case table, in both directions. */
  function ScopeFunction(scope: Scope): (r: Result<SearchFunction, LdapError>)
    ensures r == Ok(LdapRead) <==> scope == NoScope || scope == ScopeBase
    ensures r == Ok(LdapList) <==> scope == ScopeOne
    ensures r == Ok(LdapSearch) <==> scope == ScopeAll
    ensures r.Err? <==> scope.OtherScope?
    ensures r.Err? ==> r.error == SearchError
  {
    match scope
    case NoScope => Ok(LdapRead)
    case ScopeBase => Ok(LdapRead)
    case ScopeOne => Ok(LdapList)
    case ScopeAll => Ok(LdapSearch)
    case OtherScope(_) => Err(SearchError)
  }

  /**
   * The `switch ($code)` of `search` after a failed native search; the ensures
   * is its case table. `EntryOutcomeCases` states what `getEntry` makes of it.
   */
  function SearchErrorOf(code: int): (e: LdapError)
    ensures e == NoResult <==> code == ErrnoNoSuchObject
    ensures e == SizeLimit <==> code == ErrnoSizeLimitExceeded
    ensures e == MalformedFilter <==> code == ErrnoFilterError
    ensures e in {NoResult, SizeLimit, MalformedFilter, SearchError}
  {
    if code == ErrnoNoSuchObject then NoResult
    else if code == ErrnoSizeLimitExceeded then SizeLimit
    else if code == ErrnoFilterError then MalformedFilter
    else SearchError
  }

  /** One attribute of `normalizeData`: a one-element array is replaced by its element `[0]`. */
  function NormalizeValue(v: Value): Value
  {
    if v.Arr? && |v.m| == 1 then (if "0" in v.m then v.m["0"] else Null) else v
  }

  /** `r` is `data` with every attribute normalised and no attribute added or removed. */
  predicate NormalizedFrom(r: Tree, data: Tree) {
    r.Keys == data.Keys && forall k :: k in data ==> r[k] == NormalizeValue(data[k])
  }

  /** What `search` yields given whether the connection is bound and how the native call went. */
  function SearchOutcome(bound: bool, baseDn: string, filter: string, attributes: Option<seq<string>>,
                         scope: Scope, native: NativeSearch): Result<SearchHandle, LdapError>
  {
    if !bound then Err(NotBound)
    else match ScopeFunction(scope)
      case Err(e) => Err(e)
      case Ok(f) =>
        match native
        case Failed(code) => Err(SearchErrorOf(code))
        case Answered(entries) => Ok(SearchHandle(SearchCall(f, baseDn, filter, attributes), entries))
  }

  /** What `getEntry` yields: the first entry of a base-scope search, with "no result" reported as "node not found". */
  function EntryOutcome(bound: bool, native: NativeSearch): Result<Tree, LdapError> {
    if !bound then Err(NotBound)
    else match native
      case Failed(code) => if code == ErrnoNoSuchObject then Err(NodeNotFound) else Err(SearchErrorOf(code))
      case Answered(entries) => if entries == [] then Err(NodeNotFound) else Ok(entries[0])
  }

  /* ------------------------------------------------------- the connection */

  class Connection {
    const hostname: string
    const port: int
    const security: Option<string>
    var isBound: bool
    var connection: Option<Link>

    /** `__construct`: the port defaults from the security mode; nothing is bound or connected yet. */
    constructor (hostname: string, port: Option<int>, security: Option<string>)
      ensures this.hostname == hostname && this.security == security
      ensures this.port == DefaultPort(port, security)
      ensures !isBound && connection == None
    {
      this.hostname := hostname;
      this.port := DefaultPort(port, security);
      this.security := security;
      isBound := false;
      connection := None;
    }

    /**
     * `connect`: `connectOk` and `tlsOk` are the results of `ldap_connect` and
     * `ldap_start_tls`; TLS is started only in TLS mode. The link is stored
     * only when everything succeeded.
     */
    method Connect(connectOk: bool, tlsOk: bool) returns (o: Outcome)
      modifies this`connection
      ensures o.Pass? <==> connectOk && (security == Some(SecurityTls) ==> tlsOk)
      ensures o.Fail? ==> o.error == ConnectionError
      ensures o.Pass? ==> connection == Some(Link(ConnectHost(hostname, security), port, security == Some(SecurityTls)))
      ensures o.Fail? ==> connection == old(connection)
    {
      var host := hostname;
      if security == Some(SecuritySsl) {
        host := "ldaps://" + host;
      }
      if !connectOk {
        return Fail(ConnectionError);
      }
      if security == Some(SecurityTls) {
        if !tlsOk {
          return Fail(ConnectionError);
        }
      }
      connection := Some(Link(host, port, security == Some(SecurityTls)));
      o := Pass;
    }

    /**
     * `bind`: `bindOk` is the result of `ldap_bind`, which is only called
     * (`called`) when the arguments pass the check. Success marks the
     * connection bound; nothing ever marks it unbound.
     */
    method Bind(rdn: Option<string>, password: Option<string>, bindOk: bool) returns (o: Outcome, called: bool)
      modifies this`isBound
      ensures called <==> BindArguments(rdn, password).Ok?
      ensures o.Pass? <==> called && bindOk
      ensures o.Fail? ==> o.error == BindError
      ensures isBound == (old(isBound) || o.Pass?)
    {
      var isAnonymous := false;
      if rdn.None? || password.None? {
        if rdn.Some? || password.Some? {
          return Fail(BindError), false;
        }
        isAnonymous := true;
      }
      called := true;
      if !bindOk {
        return Fail(BindError), called;
      }
      isBound := true;
      o := Pass;
    }

    /** `close`: `unbindOk` is the result of `ldap_unbind`. The bound flag is left as it was. */
    method Close(unbindOk: bool) returns (o: Outcome)
      modifies this`connection
      ensures !isBound ==> o == Fail(NotBound)
      ensures isBound ==> o == if unbindOk then Pass else Fail(ConnectionError)
      ensures connection == if o.Pass? then None else old(connection)
    {
      o := ValidateBinding(isBound);
      if o.Fail? {
        return;
      }
      if !unbindOk {
        return Fail(ConnectionError);
      }
      connection := None;
    }

    /** The common tail of the write operations: `nativeOk` is the result of the native call `request`. */
    method Persist(request: Request, nativeOk: bool) returns (o: Outcome, sent: Option<Request>)
      ensures !isBound ==> o == Fail(NotBound) && sent == None
      ensures isBound ==> sent == Some(request) && o == if nativeOk then Pass else Fail(PersistenceError)
    {
      o := ValidateBinding(isBound);
      if o.Fail? {
        return o, None;
      }
      sent := Some(request);
      if !nativeOk {
        o := Fail(PersistenceError);
      }
    }

    /** `addEntry`: the entry is sent with its data normalised. */
    method AddEntry(dn: string, data: Tree, nativeOk: bool) returns (o: Outcome, sent: Option<Request>)
      ensures !isBound ==> o == Fail(NotBound) && sent == None
      ensures isBound ==> && sent.Some? && sent.value.Add? && sent.value.dn == dn
                          && NormalizedFrom(sent.value.data, data)
                          && o == if nativeOk then Pass else Fail(PersistenceError)
    {
      if !isBound {
        return Fail(NotBound), None;
      }
      var normalized := NormalizeData(data);
      o, sent := Persist(Add(dn, normalized), nativeOk);
    }

    /** `deleteEntry`. */
    method DeleteEntry(dn: string, nativeOk: bool) returns (o: Outcome, sent: Option<Request>)
      ensures !isBound ==> o == Fail(NotBound) && sent == None
      ensures isBound ==> sent == Some(Delete(dn)) && o == if nativeOk then Pass else Fail(PersistenceError)
    {
      o, sent := Persist(Delete(dn), nativeOk);
    }

    /** `addAttributeValues`: the values are sent normalised. */
    method AddAttributeValues(dn: string, data: Tree, nativeOk: bool) returns (o: Outcome, sent: Option<Request>)
      ensures !isBound ==> o == Fail(NotBound) && sent == None
      ensures isBound ==> && sent.Some? && sent.value.ModAdd? && sent.value.dn == dn
                          && NormalizedFrom(sent.value.data, data)
                          && o == if nativeOk then Pass else Fail(PersistenceError)
    {
      if !isBound {
        return Fail(NotBound), None;
      }
      var normalized := NormalizeData(data);
      o, sent := Persist(ModAdd(dn, normalized), nativeOk);
    }

    /** `replaceAttributeValues`: the values are sent normalised. */
    method ReplaceAttributeValues(dn: string, data: Tree, nativeOk: bool) returns (o: Outcome, sent: Option<Request>)
      ensures !isBound ==> o == Fail(NotBound) && sent == None
      ensures isBound ==> && sent.Some? && sent.value.ModReplace? && sent.value.dn == dn
                          && NormalizedFrom(sent.value.data, data)
                          && o == if nativeOk then Pass else Fail(PersistenceError)
    {
      if !isBound {
        return Fail(NotBound), None;
      }
      var normalized := NormalizeData(data);
      o, sent := Persist(ModReplace(dn, normalized), nativeOk);
    }

    /** `deleteAttributeValues`: the values are sent normalised. */
    method DeleteAttributeValues(dn: string, data: Tree, nativeOk: bool) returns (o: Outcome, sent: Option<Request>)
      ensures !isBound ==> o == Fail(NotBound) && sent == None
      ensures isBound ==> && sent.Some? && sent.value.ModDelete? && sent.value.dn == dn
                          && NormalizedFrom(sent.value.data, data)
                          && o == if nativeOk then Pass else Fail(PersistenceError)
    {
      if !isBound {
        return Fail(NotBound), None;
      }
      var normalized := NormalizeData(data);
      o, sent := Persist(ModDelete(dn, normalized), nativeOk);
    }

    /**
     * `search`: the gate, then the scope dispatch, then the native call whose
     * outcome is `native`; a failed call is reported by its errno.
     */
    method Search(baseDn: string, filter: string, attributes: Option<seq<string>>, scope: Scope, native: NativeSearch)
      returns (r: Result<SearchHandle, LdapError>)
      ensures r == SearchOutcome(isBound, baseDn, filter, attributes, scope, native)
      ensures !isBound ==> r == Err(NotBound)
      ensures isBound && scope.OtherScope? ==> r == Err(SearchError)
      ensures isBound && !scope.OtherScope? && native.Failed? ==> r == Err(SearchErrorOf(native.errno))
      ensures r.Ok? ==> && r.value.entries == native.entries
                        && r.value.call == SearchCall(ScopeFunction(scope).value, baseDn, filter, attributes)
    {
      var gate := ValidateBinding(isBound);
      if gate.Fail? {
        return Err(gate.error);
      }
      var dispatch := ScopeFunction(scope);
      if dispatch.Err? {
        return Err(dispatch.error);
      }
      var call := SearchCall(dispatch.value, baseDn, filter, attributes);
      match native
      case Failed(code) =>
        r := Err(SearchErrorOf(code));
      case Answered(entries) =>
        r := Ok(SearchHandle(call, entries));
    }

    /**
     * `getEntry`: a base-scope search on `dn`; "no result" and an empty answer
     * both become "node not found", so `NoResult` never escapes.
     */
    method GetEntry(dn: string, attributes: Option<seq<string>>, filter: string, native: NativeSearch)
      returns (r: Result<Tree, LdapError>)
      ensures r == EntryOutcome(isBound, native)
      ensures r != Err(NoResult)
    {
      var search := Search(dn, filter, attributes, ScopeBase, native);
      if search.Err? {
        if search.error == NoResult {
          return Err(NodeNotFound);
        }
        return Err(search.error);
      }
      var entries := search.value.entries;
      if entries == [] {
        return Err(NodeNotFound);
      }
      r := Ok(entries[0]);
    }
  }

  /**
   * `normalizeData`: the `foreach` over the attributes, replacing each
   * one-element array by its element `[0]`.
   */
  method NormalizeData(data: Tree) returns (r: Tree)
    ensures NormalizedFrom(r, data)
  {
    r := data;
    var todo := data.Keys;
    while todo != {}
      invariant todo <= data.Keys
      invariant r.Keys == data.Keys
      invariant forall k :: k in data && k !in todo ==> r[k] == NormalizeValue(data[k])
      invariant forall k :: k in todo ==> r[k] == data[k]
      decreases todo
    {
      var attribute :| attribute in todo;
      var info := data[attribute];
      if info.Arr? && |info.m| == 1 {
        r := r[attribute := if "0" in info.m then info.m["0"] else Null];
      }
      todo := todo - {attribute};
    }
  }

  /* ---------------------------------------------------------------- lemmas */

  /**
   * The host `connect` passes to `ldap_connect`: the configured name, behind the
   * `ldaps://` scheme in SSL mode only (TLS mode keeps the plain name).
   */
  lemma ConnectHostScheme(hostname: string, security: Option<string>)
    ensures var host := ConnectHost(hostname, security);
            && |hostname| <= |host| && host[|host| - |hostname|..] == hostname
            && (security == Some(SecuritySsl) ==> host[..|host| - |hostname|] == "ldaps://")
            && (security != Some(SecuritySsl) ==> host == hostname)
  {
  }

  /**
   * `validateBinding` is the only source of "not bound": a search or a read
   * fails with it exactly when the connection is not bound.
   */
  lemma NotBoundIffUnbound(bound: bool, baseDn: string, filter: string, attributes: Option<seq<string>>,
                           scope: Scope, native: NativeSearch)
    ensures SearchOutcome(bound, baseDn, filter, attributes, scope, native) == Err(NotBound) <==> !bound
    ensures EntryOutcome(bound, native) == Err(NotBound) <==> !bound
  {
  }

  /**
   * One attribute of `normalizeData`: only a one-element array is changed; the
   * array `[x]` becomes `x`, and an array of any other size is kept.
   */
  lemma NormalizeValueCases(v: Value, x: Value)
    ensures NormalizeValue(v) != v ==> v.Arr? && |v.m| == 1
    ensures NormalizeValue(Arr(map["0" := x])) == x
    ensures v.Arr? && |v.m| != 1 ==> NormalizeValue(v) == v
  {
  }

  /** Normalising determines the data sent: two normalisations of the same data agree. */
  lemma NormalizedUnique(r1: Tree, r2: Tree, data: Tree)
    requires NormalizedFrom(r1, data) && NormalizedFrom(r2, data)
    ensures r1 == r2
  {
  }

  /** Data without one-element arrays is sent unchanged. */
  lemma NormalizeKeepsPlainData(r: Tree, data: Tree)
    requires NormalizedFrom(r, data)
    requires forall k :: k in data ==> !(data[k].Arr? && |data[k].m| == 1)
    ensures r == data
  {
  }

  /**
   * `getEntry`'s translation: "node not found" exactly when the directory has
   * no such object or answers nothing; a found entry is returned unchanged;
   * other search failures pass through.
   */
  lemma EntryOutcomeCases(bound: bool, native: NativeSearch)
    ensures !bound ==> EntryOutcome(bound, native) == Err(NotBound)
    ensures bound ==> (EntryOutcome(bound, native) == Err(NodeNotFound)
                       <==> native == Failed(ErrnoNoSuchObject) || native == Answered([]))
    ensures bound && native.Answered? && native.entries != [] ==> EntryOutcome(bound, native) == Ok(native.entries[0])
    ensures bound && native.Failed? && native.errno != ErrnoNoSuchObject ==>
              EntryOutcome(bound, native) == Err(SearchErrorOf(native.errno))
    ensures EntryOutcome(bound, native) != Err(NoResult)
  {
  }

  /** `getEntry` is a base-scope search whose failures it keeps, apart from "no result". */
  lemma EntryFromSearch(bound: bool, dn: string, filter: string, attributes: Option<seq<string>>, native: NativeSearch)
    ensures var s := SearchOutcome(bound, dn, filter, attributes, ScopeBase, native);
            && (s.Err? && s.error != NoResult ==> EntryOutcome(bound, native) == Err(s.error))
            && (s.Err? && s.error == NoResult ==> EntryOutcome(bound, native) == Err(NodeNotFound))
            && (s.Ok? && s.value.entries != [] ==> EntryOutcome(bound, native) == Ok(s.value.entries[0]))
            && (s.Ok? ==> s.value.call.native == LdapRead)
  {
  }

  /** A fresh connection refuses every gated operation until a bind succeeds. */
  method FreshConnectionIsUnbound(hostname: string, baseDn: string, native: NativeSearch) returns (r: Result<Tree, LdapError>)
    ensures r == Err(NotBound)
  {
    var c := new Connection(hostname, None, None);
    r := c.GetEntry(baseDn, None, DefaultFilter, native);
  }

  /** A successful bind opens the gate: a base search then reports the directory's answer. */
  method BoundAfterBind(hostname: string, dn: string, entry: Tree) returns (r: Result<Tree, LdapError>)
    ensures r == Ok(entry)
  {
    var c := new Connection(hostname, None, Some(SecurityTls));
    var connected := c.Connect(true, true);
    var bound, called := c.Bind(None, None, true);
    r := c.GetEntry(dn, None, DefaultFilter, Answered([entry]));
  }

  /** A bind with only one of rdn and password is refused before reaching the directory and leaves the connection unbound. */
  method HalfAnonymousBindRefused(hostname: string, rdn: string) returns (o: Outcome, called: bool, bound: bool)
    ensures o == Fail(BindError) && !called && !bound
  {
    var c := new Connection(hostname, Some(LdapPort), None);
    o, called := c.Bind(Some(rdn), None, true);
    bound := c.isBound;
  }
}
