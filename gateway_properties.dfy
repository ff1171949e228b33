/** What the endpoint promises, stated over Handle and proved for every store, request and fault. */
module GatewayProperties {
  import opened Wrappers
  import opened Decimals
  import opened ClientModel
  import opened ExtraDto
  import opened RequestDtos
  import opened ResponseDtos
  import opened ClientServices
  import opened Controller

  /** The first extra of this name has this (non-null) value. */
  ghost predicate Carries(request: RequestDto, name: string, value: string)
    reads request
  {
    request.extras.Some?
    && exists i :: IsFirstNamed(request.extras.value, name, i) && request.extras.value[i].value == Some(value)
  }

  /** No extra has this name (or there is no list of extras at all). */
  ghost predicate Lacks(request: RequestDto, name: string)
    reads request
  {
    request.extras.None? || NoneNamed(request.extras.value, name)
  }

  /** The request passes validation as an operation of this type for this login and password. */
  ghost predicate Dispatches(request: RequestDto, requestType: string, login: string, password: string)
    reads request
  {
    Carries(request, "login", login) && Carries(request, "password", password)
    && request.requestType == Some(requestType)
  }

  lemma CarriesFound(request: RequestDto, name: string, value: string)
    requires Carries(request, name, value)
    ensures request.GetExtraValue(name) == Success(Some(value))
  {
    var i :| IsFirstNamed(request.extras.value, name, i) && request.extras.value[i].value == Some(value);
    assert ValueOrThrow(request.extras.value[i]) == Success(Some(value));
  }

  // ---------------------------------------------------------------------------------------------
  // Validation: login, then password, then request type; the first failure wins and the store is
  // neither read nor changed.

  lemma MissingLoginIsBadRequest(s: Store, request: RequestDto, f: Faults)
    requires Lacks(request, "login")
    ensures Handle(s, request, f) == (BadRequest, s)
  {
  }

  lemma MissingPasswordIsBadRequest(s: Store, request: RequestDto, f: Faults, login: string)
    requires Carries(request, "login", login) && Lacks(request, "password")
    ensures Handle(s, request, f) == (BadRequest, s)
  {
    CarriesFound(request, "login", login);
  }

  lemma MissingTypeIsBadRequest(s: Store, request: RequestDto, f: Faults, login: string, password: string)
    requires Carries(request, "login", login) && Carries(request, "password", password)
    requires request.requestType.None?
    ensures Handle(s, request, f) == (BadRequest, s)
  {
    CarriesFound(request, "login", login);
    CarriesFound(request, "password", password);
  }

  /** An unknown type is refused like a missing field, however good the credentials are. */
  lemma UnknownTypeIsBadRequest(s: Store, request: RequestDto, f: Faults, t: string, login: string, password: string)
    requires Dispatches(request, t, login, password)
    requires t != CREATE_AGT && t != GET_BALANCE
    ensures Handle(s, request, f) == (BadRequest, s)
  {
    CarriesFound(request, "login", login);
    CarriesFound(request, "password", password);
  }

  /** A request refused as bad is refused in every store and under every fault, and changes nothing:
      the outcome does not depend on any store call. */
  lemma BadRequestNeverReachesStore(s: Store, s2: Store, request: RequestDto, f: Faults, f2: Faults)
    requires Handle(s, request, f).0 == BadRequest
    ensures Handle(s, request, f).1 == s
    ensures Handle(s2, request, f2) == (BadRequest, s2)
  {
    var login := request.GetExtraValue("login");
    var password := request.GetExtraValue("password");
    if login.Success? && login.value.Some? && password.Success? && password.value.Some?
      && request.requestType.Some?
    {
      var t := request.requestType.value;
      assert t != CREATE_AGT && t != GET_BALANCE;
    }
  }

  /** The first login extra without a value makes findFirst throw; the exception escapes process. */
  lemma NullLoginValueEscapes(s: Store, request: RequestDto, f: Faults, i: int)
    requires request.extras.Some? && IsFirstNamed(request.extras.value, "login", i)
    requires request.extras.value[i].value.None?
    ensures Handle(s, request, f) == (InternalServerError, s)
  {
  }

  /** A request that passes validation is never refused as bad, and every response produced carries one
      of the five result codes. */
  lemma DispatchedIsNeverBadRequest(s: Store, request: RequestDto, f: Faults, t: string, login: string, password: string)
    requires Dispatches(request, t, login, password)
    requires t == CREATE_AGT || t == GET_BALANCE
    ensures Handle(s, request, f).0 != BadRequest
    ensures t == CREATE_AGT ==> Handle(s, request, f).0.Ok?
  {
    CarriesFound(request, "login", login);
    CarriesFound(request, "password", password);
  }

  lemma ResultCodesAreClosed(s: Store, request: RequestDto, f: Faults)
    requires Handle(s, request, f).0.Ok?
    ensures Handle(s, request, f).0.body.resultCode.Some?
    ensures 0 <= Handle(s, request, f).0.body.resultCode.value <= 4
  {
  }

  // ---------------------------------------------------------------------------------------------
  // CREATE-AGT

  /** An existing login gives code 1 and nothing is created, whether or not a save would fail. */
  lemma CreateExistingLogin(s: Store, request: RequestDto, f: Faults, login: string, password: string)
    requires Dispatches(request, CREATE_AGT, login, password)
    requires !f.lookupFails && login in s.rows
    ensures Handle(s, request, f) == (Ok(Code(CLIENT_ALREADY_EXISTS)), s)
  {
    CarriesFound(request, "login", login);
    CarriesFound(request, "password", password);
  }

  /** A new login gives code 0 with no extras, and the store gains exactly that client, with the given
      password, a zero balance and the next identity. */
  lemma CreateNewLogin(s: Store, request: RequestDto, login: string, password: string)
    requires Dispatches(request, CREATE_AGT, login, password)
    requires login !in s.rows
    ensures Handle(s, request, NoFaults) == (
      Ok(ResponseView(Some(OK), [])),
      Store(s.rows[login := ClientRecord(Some(s.nextId), Some(login), Some(password), Some(Zero))], s.nextId + 1))
  {
    CarriesFound(request, "login", login);
    CarriesFound(request, "password", password);
  }

  /** A lookup or a create that throws gives code 2 and leaves the store as it was. */
  lemma CreateFailureIsTechnicalError(s: Store, request: RequestDto, f: Faults, login: string, password: string)
    requires Dispatches(request, CREATE_AGT, login, password)
    requires f.lookupFails || (login !in s.rows && f.saveFails)
    ensures Handle(s, request, f) == (Ok(Code(TECHNICAL_ERROR)), s)
  {
    CarriesFound(request, "login", login);
    CarriesFound(request, "password", password);
  }

  // ---------------------------------------------------------------------------------------------
  // GET-BALANCE

  lemma BalanceUnknownLogin(s: Store, request: RequestDto, f: Faults, login: string, password: string)
    requires Dispatches(request, GET_BALANCE, login, password)
    requires !f.lookupFails && login !in s.rows
    ensures Handle(s, request, f) == (Ok(Code(CLIENT_DOES_NOT_EXIST)), s)
  {
    CarriesFound(request, "login", login);
    CarriesFound(request, "password", password);
  }

  lemma BalanceWrongPassword(s: Store, request: RequestDto, f: Faults, login: string, password: string)
    requires Dispatches(request, GET_BALANCE, login, password)
    requires !f.lookupFails && login in s.rows && s.rows[login].password != Some(password)
    ensures Handle(s, request, f) == (Ok(Code(WRONG_PASSWORD)), s)
  {
    CarriesFound(request, "login", login);
    CarriesFound(request, "password", password);
  }

  /** The right password gives code 0 and exactly one extra, "balance", holding the stored balance's
      BigDecimal string. */
  lemma BalanceCorrectPassword(s: Store, request: RequestDto, f: Faults, login: string, password: string)
    requires Dispatches(request, GET_BALANCE, login, password)
    requires !f.lookupFails && login in s.rows && s.rows[login].password == Some(password)
    requires s.rows[login].balance.Some?
    ensures Handle(s, request, f) == (
      Ok(ResponseView(Some(OK), [Extra("balance", Some(ToString(s.rows[login].balance.value)))])), s)
  {
    CarriesFound(request, "login", login);
    CarriesFound(request, "password", password);
  }

  /** A stored null balance makes balance.toString() throw; the exception escapes process. */
  lemma BalanceNullEscapes(s: Store, request: RequestDto, f: Faults, login: string, password: string)
    requires Dispatches(request, GET_BALANCE, login, password)
    requires !f.lookupFails && login in s.rows && s.rows[login].password == Some(password)
    requires s.rows[login].balance.None?
    ensures Handle(s, request, f) == (InternalServerError, s)
  {
    CarriesFound(request, "login", login);
    CarriesFound(request, "password", password);
  }

  lemma BalanceLookupFailure(s: Store, request: RequestDto, f: Faults, login: string, password: string)
    requires Dispatches(request, GET_BALANCE, login, password)
    requires f.lookupFails
    ensures Handle(s, request, f) == (Ok(Code(TECHNICAL_ERROR)), s)
  {
    CarriesFound(request, "login", login);
    CarriesFound(request, "password", password);
  }

  /** GET-BALANCE reads only: the store is unchanged, so asking again gives the same answer. */
  lemma BalanceIsReadOnly(s: Store, request: RequestDto, f: Faults)
    requires request.requestType == Some(GET_BALANCE)
    ensures Handle(s, request, f).1 == s
    ensures Handle(Handle(s, request, f).1, request, f) == Handle(s, request, f)
  {
    match request.GetExtraValue("login")
    case Failure(_) =>
    case Success(login) =>
      if login.Some? {
        match request.GetExtraValue("password")
        case Failure(_) =>
        case Success(password) =>
          if password.Some? {
            match BalanceReply(s, login.value, password.value, f)
            case Failure(_) =>
            case Success(_) =>
          }
      }
  }

  // ---------------------------------------------------------------------------------------------
  // The store

  /** Every request keeps the table's constraints, in particular one client per login. */
  lemma HandlePreservesValid(s: Store, request: RequestDto, f: Faults)
    requires Valid(s)
    ensures Valid(Handle(s, request, f).1)
  {
  }

  /** Every stored client has a balance; rows written through the endpoint always do. */
  predicate BalancesSet(s: Store) {
    forall k :: k in s.rows ==> s.rows[k].balance.Some?
  }

  lemma HandleKeepsBalancesSet(s: Store, request: RequestDto, f: Faults)
    requires BalancesSet(s)
    ensures BalancesSet(Handle(s, request, f).1)
  {
  }

  /** With every balance set no exception escapes a dispatched request: both operations answer 200. */
  lemma DispatchedIsOk(s: Store, request: RequestDto, f: Faults, t: string, login: string, password: string)
    requires BalancesSet(s)
    requires Dispatches(request, t, login, password)
    requires t == CREATE_AGT || t == GET_BALANCE
    ensures Handle(s, request, f).0.Ok?
  {
    CarriesFound(request, "login", login);
    CarriesFound(request, "password", password);
  }

  /** The protocol walk-through: create "123456"/"pwd" (0), create it again (1), read its balance with the
      right password (0, the string of BigDecimal.ZERO), with a wrong one (4), and for an unknown login (3). */
  lemma ProtocolScenario()
    ensures var s0 := Store(map[], 1);
      var (first, s1) := CreateReply(s0, "123456", "pwd", NoFaults);
      && first == Code(OK)
      && CreateReply(s1, "123456", "pwd", NoFaults) == (Code(CLIENT_ALREADY_EXISTS), s1)
      && BalanceReply(s1, "123456", "pwd", NoFaults)
         == Success(ResponseView(Some(OK), [Extra("balance", Some("0"))]))
      && BalanceReply(s1, "123456", "wrong", NoFaults) == Success(Code(WRONG_PASSWORD))
      && BalanceReply(s1, "doesnotexist", "x", NoFaults) == Success(Code(CLIENT_DOES_NOT_EXIST))
  {
    ZeroStrings();
  }
}
