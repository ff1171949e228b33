/** The single endpoint: validation of the parsed request, dispatch on its type, and the two operations. */
module Controller {
  import opened Wrappers
  import opened Decimals
  import opened ClientModel
  import opened ExtraDto
  import opened RequestDtos
  import opened ResponseDtos
  import opened ClientServices

  const CREATE_AGT: string := "CREATE-AGT"
  const GET_BALANCE: string := "GET-BALANCE"

  const CLIENT_DOES_NOT_EXIST: int := 3
  const OK: int := 0
  const WRONG_PASSWORD: int := 4
  const CLIENT_ALREADY_EXISTS: int := 1
  const TECHNICAL_ERROR: int := 2

  /** Whether the store calls of one request fail: `lookupFails` for findByLogin, `saveFails` for save. */
  datatype Faults = Faults(lookupFails: bool, saveFails: bool)

  const NoFaults: Faults := Faults(false, false)

  /** What the endpoint answers: 400 with no body, 200 with a response, or the 500 the framework sends
      when an exception escapes the handler. */
  datatype Reply = BadRequest | Ok(body: ResponseView) | InternalServerError

  /** `new ResponseDto(code)` as a value. */
  function Code(code: int): ResponseView {
    ResponseView(Some(code), [])
  }

  /** getBalance over the store; a Failure is an exception that leaves it. */
  function BalanceReply(s: Store, login: string, password: string, f: Faults): (r: Result<ResponseView>)
    ensures r.Failure? ==>
      r.error == NullPointerException && !f.lookupFails && login in s.rows
      && s.rows[login].password == Some(password) && s.rows[login].balance.None?
    ensures r.Success? ==>
      r.value.resultCode.Some? && r.value.resultCode.value in {OK, TECHNICAL_ERROR, CLIENT_DOES_NOT_EXIST, WRONG_PASSWORD}
    ensures r.Success? && r.value.resultCode == Some(OK) ==>
      login in s.rows && s.rows[login].password == Some(password) && s.rows[login].balance.Some?
      && r.value.extras == [Extra("balance", Some(ToString(s.rows[login].balance.value)))]
    ensures r.Success? && r.value.resultCode != Some(OK) ==> r.value.extras == []
  {
    match FindRow(s, login, f.lookupFails)
    case Failure(_) => Success(Code(TECHNICAL_ERROR))
    case Success(client) =>
      if client.None? then Success(Code(CLIENT_DOES_NOT_EXIST))
      else if ClientService.IsPasswordCorrect(client, password) then
        match ClientService.GetBalance(client)
        case None => Failure(NullPointerException)
        case Some(b) => Success(ResponseView(Some(OK), [Extra("balance", Some(ToString(b)))]))
      else Success(Code(WRONG_PASSWORD))
  }

  /** createClient over the store: the response and the store afterwards. It catches every exception. */
  function CreateReply(s: Store, login: string, password: string, f: Faults): (r: (ResponseView, Store))
    ensures r.0.extras == [] && r.0.resultCode.Some?
    ensures r.0.resultCode.value in {OK, CLIENT_ALREADY_EXISTS, TECHNICAL_ERROR}
    ensures r.0.resultCode == Some(OK) ==>
      login !in s.rows
      && r.1 == Store(s.rows[login := ClientRecord(Some(s.nextId), Some(login), Some(password), Some(Zero))], s.nextId + 1)
    ensures r.0.resultCode != Some(OK) ==> r.1 == s
    ensures Valid(s) ==> Valid(r.1)
  {
    match FindRow(s, login, f.lookupFails)
    case Failure(_) => (Code(TECHNICAL_ERROR), s)
    case Success(client) =>
      if client.None? then
        var (created, s') := Create(s, login, password, f.saveFails);
        if created.Success? then (Code(OK), s') else (Code(TECHNICAL_ERROR), s')
      else (Code(CLIENT_ALREADY_EXISTS), s)
  }

  /** process: the reply to one request and the store afterwards. */
  function Handle(s: Store, request: RequestDto, f: Faults): (r: (Reply, Store))
    reads request
    ensures !r.0.Ok? ==> r.1 == s
    ensures r.1 != s ==> request.requestType == Some(CREATE_AGT) && r.0 == Ok(Code(OK))
  {
    match request.GetExtraValue("login")
    case Failure(_) => (InternalServerError, s)
    case Success(login) =>
      if login.None? then (BadRequest, s)
      else
        match request.GetExtraValue("password")
        case Failure(_) => (InternalServerError, s)
        case Success(password) =>
          if password.None? then (BadRequest, s)
          else if request.requestType.None? then (BadRequest, s)
          else if request.requestType.value == CREATE_AGT then
            var (body, s') := CreateReply(s, login.value, password.value, f);
            (Ok(body), s')
          else if request.requestType.value == GET_BALANCE then
            match BalanceReply(s, login.value, password.value, f)
            case Failure(_) => (InternalServerError, s)
            case Success(body) => (Ok(body), s)
          else (BadRequest, s)
  }

  class ApiController {
    const service: ClientService

    constructor (service: ClientService)
      ensures this.service == service
    {
      this.service := service;
    }

    /** process: validates login, password and request type in that order, then dispatches. */
    method Process(request: RequestDto, f: Faults) returns (reply: Reply)
      modifies service.repository
      ensures (reply, service.repository.State()) == Handle(old(service.repository.State()), request, f)
    {
      var login := request.GetExtraValue("login");
      if login.Failure? {
        return InternalServerError;
      }
      if login.value.None? {
        return BadRequest;
      }
      var password := request.GetExtraValue("password");
      if password.Failure? {
        return InternalServerError;
      }
      if password.value.None? {
        return BadRequest;
      }
      var requestType := request.requestType;
      if requestType.None? {
        return BadRequest;
      }
      var response: ResponseDto;
      if requestType.value == CREATE_AGT {
        response := CreateClient(login.value.value, password.value.value, f);
      } else if requestType.value == GET_BALANCE {
        var r := GetBalance(login.value.value, password.value.value, f);
        if r.Failure? {
          return InternalServerError;
        }
        response := r.value;
      } else {
        return BadRequest;
      }
      reply := Ok(response.View());
    }

    /** getBalance: reads the store only; the response is built by adding the balance extra. */
    method GetBalance(login: string, password: string, f: Faults) returns (r: Result<ResponseDto>)
      ensures r.Success? ==> fresh(r.value)
      ensures match r
        case Success(response) => BalanceReply(service.repository.State(), login, password, f) == Success(response.View())
        case Failure(e) => BalanceReply(service.repository.State(), login, password, f) == Failure(e)
    {
      var client := service.FindByLogin(login, f.lookupFails);
      var response: ResponseDto;
      if client.Failure? {
        response := new ResponseDto.WithCode(Some(TECHNICAL_ERROR));
      } else if client.value.None? {
        response := new ResponseDto.WithCode(Some(CLIENT_DOES_NOT_EXIST));
      } else if ClientService.IsPasswordCorrect(client.value, password) {
        response := new ResponseDto.WithCode(Some(OK));
        var balance := ClientService.GetBalance(client.value);
        if balance.None? {
          return Failure(NullPointerException);
        }
        response.AddExtra("balance", Some(ToString(balance.value)));
        assert response.extras == [Extra("balance", Some(ToString(balance.value)))];
      } else {
        response := new ResponseDto.WithCode(Some(WRONG_PASSWORD));
      }
      r := Success(response);
    }

    /** createClient: looks the login up, creates it when absent, and turns every exception into code 2. */
    method CreateClient(login: string, password: string, f: Faults) returns (response: ResponseDto)
      modifies service.repository
      ensures fresh(response)
      ensures (response.View(), service.repository.State())
        == CreateReply(old(service.repository.State()), login, password, f)
    {
      var client := service.FindByLogin(login, f.lookupFails);
      if client.Failure? {
        response := new ResponseDto.WithCode(Some(TECHNICAL_ERROR));
      } else if client.value.None? {
        var created := service.CreateClient(login, password, f.saveFails);
        if created.Success? {
          response := new ResponseDto.WithCode(Some(OK));
        } else {
          response := new ResponseDto.WithCode(Some(TECHNICAL_ERROR));
        }
      } else {
        response := new ResponseDto.WithCode(Some(CLIENT_ALREADY_EXISTS));
      }
    }
  }
}
