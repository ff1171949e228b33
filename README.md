# Account gateway model

A Dafny model of the account gateway of a small prepaid-account service. There is one XML endpoint. It
takes a `<request>` with a `request-type` and name/value `extra` elements (`login`, `password`). It
answers either 400 Bad Request with no body, or 200 with a `<response>` that carries a result code and,
for a balance query, a `balance` extra.

Two operations exist:

- `CREATE-AGT` creates an account with a zero balance.
- `GET-BALANCE` reads the balance, after a plaintext password check.

Result codes: 0 OK, 1 client already exists, 2 technical error, 3 no such client, 4 wrong password.

## Modules

| file | module | models |
|---|---|---|
| `wrappers.dfy` | `Wrappers` | Java `null` as `Option`; a thrown exception as `Result.Failure`. |
| `decimals.dfy` | `Decimals` | `BigDecimal` as (unscaled value, scale), with `BigDecimal.toString`. |
| `client.dfy` | `ClientModel` | The `Client` entity. It is a class with setters; `ClientRecord` is its state as a value. |
| `extra_dto.dfy` | `ExtraDto` | An extra, and the first-match stream lookup over a list of extras. |
| `request_dto.dfy` | `RequestDtos` | The parsed request (`RequestDto`) and `getExtraValue`. |
| `response_dto.dfy` | `ResponseDtos` | The response (`ResponseDto`): constructors, setters and the append-only `addExtra`. |
| `client_service.dfy` | `ClientServices` | The CLIENTS table as a value `Store`, a map from login to record. Also `ClientRepository` over it, and `ClientService`. |
| `api_controller.dfy` | `Controller` | `Handle` is the whole endpoint as a function of (store, request, faults). `ApiController` is the imperative controller proved equal to it. |
| `gateway_properties.dfy` | `GatewayProperties` | The endpoint's promises, proved over `Handle`. |

## Conventions

- **The store.** The repository is a `map` from login to `ClientRecord`, plus the next identity value.
  - `Valid` states the column constraints: each row sits under its own login, which makes login unique;
    the password is not null; the identity has been assigned.
  - `findByLogin` and `save` may fail. A `Faults` value says whether each store call of a request fails,
    so a database outage is an input, not a hidden effect.
  - `save` also fails, with a data-integrity violation, for a taken login or a null password.
- **Null values.** Java `null` is `None`. The entity's fields, the request's `requestType` and
  `extras`, an extra's value and the response's result code are all nullable.
- **Escaping exceptions.** An exception that escapes `process` becomes `InternalServerError` (the
  framework's 500).

## Behaviour worth knowing

- **A failed create is a technical error.** When the lookup finds nothing and the create then throws,
  the answer is 2 (`TECHNICAL_ERROR`). This includes a uniqueness violation raised by a concurrent
  create of the same login: such a request gets 2, not 1.
- **The balance string is `BigDecimal.toString()` of the stored value.** It does not always carry four
  decimals. A client created by the service holds `BigDecimal.ZERO`, so the model answers `"0"`. The
  string `"0.0000"` appears only when the database hands the value back at the scale of a
  `DECIMAL(19, 4)` column (see `ZeroStrings`).
- **Some requests crash instead of failing validation.** `Stream.findFirst` throws on a null element.
  So a request whose first `login` (or `password`) extra has no value makes `getExtraValue` throw, and
  the request ends in a 500. A stored client with a null balance fails the same way in
  `balance.toString()`.

## Model

| member | source | states |
|---|---|---|
| `ExtraDto.FirstValueSpec` | src/main/java/com/example/qiwitest/dto/RequestDto.java:41-45 | The filter/findFirst lookup answers null exactly when no extra has the name. Otherwise it answers the value of the lowest-index extra with that name, throwing when that value is null. |
| `RequestDtos.RequestDto.GetExtraValue` | src/main/java/com/example/qiwitest/dto/RequestDto.java:37-46 | Null when the extras list is null or has no extra of that name. Otherwise the first such extra's value (or the exception). Reads the fields only, so it changes neither. |
| `ExtraDto.FirstValue` | src/main/java/com/example/qiwitest/dto/RequestDto.java:41-45 | The stream pipeline over a list of extras. A non-null answer is the value of an extra with that name; a thrown exception is a NullPointerException and some extra of that name has a null value. `FirstValueSpec` pins down which extra. |
| `RequestDtos.FirstDuplicateWins` | src/main/java/com/example/qiwitest/dto/RequestDto.java:41-45 | When the name occurs twice, with any extras of other names before the first occurrence and anything between and after, the first occurrence's value is returned. |
| `RequestDtos.RequestDto.constructor` | src/main/java/com/example/qiwitest/dto/RequestDto.java:12-19 | A new request has a null type and null extras. |
| `RequestDtos.RequestDto.SetRequestType` | src/main/java/com/example/qiwitest/dto/RequestDto.java:25-27 | The type afterwards is the one set; the extras are unchanged. |
| `RequestDtos.RequestDto.SetExtras` | src/main/java/com/example/qiwitest/dto/RequestDto.java:33-35 | The extras afterwards are the ones set; the type is unchanged. |
| `ResponseDtos.ResponseDto.constructor` | src/main/java/com/example/qiwitest/dto/ResponseDto.java:18-20 | A new response has an empty extras list and no result code. |
| `ResponseDtos.ResponseDto.WithCode` | src/main/java/com/example/qiwitest/dto/ResponseDto.java:22-25 | The result code is the given one and the extras list is empty. |
| `ResponseDtos.ResponseDto.SetResultCode` | src/main/java/com/example/qiwitest/dto/ResponseDto.java:31-33 | The code afterwards is the one set; the extras are unchanged. |
| `ResponseDtos.ResponseDto.SetExtras` | src/main/java/com/example/qiwitest/dto/ResponseDto.java:39-41 | The extras afterwards are the ones set; the code is unchanged. |
| `ResponseDtos.ResponseDto.AddExtra` | src/main/java/com/example/qiwitest/dto/ResponseDto.java:43-48 | The list grows by exactly one and ends in (name, value). Every earlier element is kept, including one of the same name. The result code is unchanged. |
| `ClientModel.Client.constructor` | src/main/java/com/example/qiwitest/model/Client.java:21-25 | The JPA constructor leaves id, login and password null. The field initializer sets the balance to zero. |
| `ClientModel.Client.WithCredentials` | src/main/java/com/example/qiwitest/model/Client.java:27-31 | Stores the login and password, with a zero balance and no id. |
| `ClientModel.Client.WithBalance` | src/main/java/com/example/qiwitest/model/Client.java:33-37 | Stores exactly the given login, password and balance. |
| `ClientModel.Client.SetId` | src/main/java/com/example/qiwitest/model/Client.java:43-45 | Only the id changes, to the given value. |
| `ClientModel.Client.SetLogin` | src/main/java/com/example/qiwitest/model/Client.java:51-53 | Only the login changes, to the given value. |
| `ClientModel.Client.SetPassword` | src/main/java/com/example/qiwitest/model/Client.java:59-61 | Only the password changes, to the given value. |
| `ClientModel.Client.SetBalance` | src/main/java/com/example/qiwitest/model/Client.java:67-69 | Only the balance changes, to the given value. |
| `ClientServices.FindRow` | src/main/java/com/example/qiwitest/repository/ClientRepository.java:18 | Throws exactly when the database fails. In a valid store it is null exactly when no row has that login. A found row is a stored row whose login is the one asked for. |
| `ClientServices.SaveRow` | src/main/java/com/example/qiwitest/service/ClientService.java:51-52 | In a valid store, a save that does not fail succeeds exactly when the password is not null and no row has the login. A failed save leaves the store as it was. A successful one stores the entity under its login with the next identity. Validity is kept. |
| `ClientServices.Create` | src/main/java/com/example/qiwitest/service/ClientService.java:49-57 | Saving `new Client(login, password)`. Without a database failure it succeeds exactly when the login is not stored. A success is the client with the next identity, that password and a zero balance, stored under its login, and the counter moves on. A database failure throws a data-access exception. Any failure leaves the store as it was. `CreateThenFind` and `CreateTakenLoginFails` relate it to the lookup. |
| `ClientServices.ClientRepository.FindByLogin` | src/main/java/com/example/qiwitest/repository/ClientRepository.java:18 | The repository's lookup is `FindRow` on its current table. |
| `ClientServices.ClientRepository.Save` | src/main/java/com/example/qiwitest/service/ClientService.java:52 | Result and table afterwards are `SaveRow` of the table before. |
| `ClientServices.ClientService.constructor` | src/main/java/com/example/qiwitest/service/ClientService.java:22-24 | The service keeps the repository it is given. |
| `ClientServices.ClientService.FindByLogin` | src/main/java/com/example/qiwitest/service/ClientService.java:32-39 | Returns the stored client with that login, or null, and rethrows a failure. It changes nothing (it has no frame to change). |
| `ClientServices.ClientService.CreateClient` | src/main/java/com/example/qiwitest/service/ClientService.java:49-57 | Saves `new Client(login, password)`. Result and table afterwards are those of the save, and failures are passed on. |
| `ClientServices.ClientService.IsPasswordCorrect` | src/main/java/com/example/qiwitest/service/ClientService.java:66-68 | False for a null client. Otherwise true exactly when the stored password equals the given one. |
| `ClientServices.ClientService.GetBalance` | src/main/java/com/example/qiwitest/service/ClientService.java:76-78 | Null for a null client, otherwise that client's balance. |
| `ClientServices.LoginsUnique` | src/main/java/com/example/qiwitest/model/Client.java:14 | In a valid store, two rows with the same login are the same row. |
| `ClientServices.CreateThenFind` | src/main/java/com/example/qiwitest/service/ClientService.java:49-52 | After a successful create, the lookup finds the client with the given password and a zero balance. Every other login is looked up as before. |
| `ClientServices.CreateTakenLoginFails` | src/main/java/com/example/qiwitest/model/Client.java:14-15 | Creating a stored login throws the uniqueness violation and leaves the store unchanged. |
| `Controller.Handle` | src/main/java/com/example/qiwitest/controller/ApiController.java:42-75 | The whole endpoint: reply and store afterwards for a store, a request and the faults. Any reply other than 200 leaves the store unchanged, and the store changes only for a `CREATE-AGT` request answered with code 0. The lemmas of `GatewayProperties` state the rest. |
| `Controller.BalanceReply` | src/main/java/com/example/qiwitest/controller/ApiController.java:77-97 | The balance operation. It answers one of the codes 0, 2, 3, 4. Code 0 means the login is stored with exactly that password and a non-null balance, and the only extra is `balance` with that balance's string. Every other code has no extras. An escaping exception is the NullPointerException of a matching client whose balance is null. |
| `Controller.CreateReply` | src/main/java/com/example/qiwitest/controller/ApiController.java:99-117 | The create operation. It answers one of the codes 0, 1, 2, never with extras. Code 0 means the login was not stored, and the store gains exactly that client with a zero balance and the next identity. Every other code leaves the store unchanged. The table's constraints are kept. |
| `Controller.ApiController.constructor` | src/main/java/com/example/qiwitest/controller/ApiController.java:34-37 | The controller keeps the service it is given. |
| `Controller.ApiController.Process` | src/main/java/com/example/qiwitest/controller/ApiController.java:42-75 | The reply and the table afterwards are `Handle` of the table before, the request and the faults. |
| `Controller.ApiController.GetBalance` | src/main/java/com/example/qiwitest/controller/ApiController.java:77-97 | The response built (a fresh object), or the exception thrown, is `BalanceReply` on the current table. |
| `Controller.ApiController.CreateClient` | src/main/java/com/example/qiwitest/controller/ApiController.java:99-117 | The response built and the table afterwards are `CreateReply` of the table before. |
| `GatewayProperties.MissingLoginIsBadRequest` | src/main/java/com/example/qiwitest/controller/ApiController.java:46-50 | With no `login` extra the reply is 400 and the store is unchanged. This holds whatever the password extra holds, even one that would throw: login is checked first. |
| `GatewayProperties.MissingPasswordIsBadRequest` | src/main/java/com/example/qiwitest/controller/ApiController.java:52-56 | With a login but no `password` extra the reply is 400, whatever the request type. |
| `GatewayProperties.MissingTypeIsBadRequest` | src/main/java/com/example/qiwitest/controller/ApiController.java:58-62 | With login and password but a null request type the reply is 400. |
| `GatewayProperties.UnknownTypeIsBadRequest` | src/main/java/com/example/qiwitest/controller/ApiController.java:64-72 | A type other than `CREATE-AGT` and `GET-BALANCE` gets 400 in every store, with valid credentials too. |
| `GatewayProperties.BadRequestNeverReachesStore` | src/main/java/com/example/qiwitest/controller/ApiController.java:45-72 | A request refused with 400 leaves the store unchanged. It is refused the same way in every store and under every fault: no store call decides it. |
| `GatewayProperties.NullLoginValueEscapes` | src/main/java/com/example/qiwitest/dto/RequestDto.java:41-45 | If the first `login` extra has no value, findFirst throws, and `process` ends in a 500 with the store unchanged. |
| `GatewayProperties.DispatchedIsNeverBadRequest` | src/main/java/com/example/qiwitest/controller/ApiController.java:64-74 | A request with login, password and a known type is never refused with 400. A `CREATE-AGT` one always gets 200. |
| `GatewayProperties.ResultCodesAreClosed` | src/main/java/com/example/qiwitest/controller/ApiController.java:26-30 | Every 200 reply carries a result code in 0..4. |
| `GatewayProperties.CreateExistingLogin` | src/main/java/com/example/qiwitest/controller/ApiController.java:114-116 | `CREATE-AGT` for a stored login gives code 1 and creates nothing. This holds whether or not a save would have failed. |
| `GatewayProperties.CreateNewLogin` | src/main/java/com/example/qiwitest/controller/ApiController.java:107-110 | `CREATE-AGT` for a new login gives code 0 with no extras. The store gains exactly that client: given password, zero balance, next identity. |
| `GatewayProperties.CreateFailureIsTechnicalError` | src/main/java/com/example/qiwitest/controller/ApiController.java:101-113 | A failing lookup, or a failing create after an empty lookup, gives code 2 and leaves the store unchanged. |
| `GatewayProperties.BalanceUnknownLogin` | src/main/java/com/example/qiwitest/controller/ApiController.java:85-86 | `GET-BALANCE` for an unknown login gives code 3. |
| `GatewayProperties.BalanceWrongPassword` | src/main/java/com/example/qiwitest/controller/ApiController.java:88-95 | `GET-BALANCE` with a password other than the stored one gives code 4. |
| `GatewayProperties.BalanceCorrectPassword` | src/main/java/com/example/qiwitest/controller/ApiController.java:88-92 | The right password gives code 0 and exactly one extra, `balance`, holding the string of the stored balance. |
| `GatewayProperties.BalanceNullEscapes` | src/main/java/com/example/qiwitest/controller/ApiController.java:90-91 | A stored null balance makes `toString` throw, and the request ends in a 500. |
| `GatewayProperties.BalanceLookupFailure` | src/main/java/com/example/qiwitest/controller/ApiController.java:79-83 | A failing lookup gives code 2. |
| `GatewayProperties.BalanceIsReadOnly` | src/main/java/com/example/qiwitest/controller/ApiController.java:77-97 | Any `GET-BALANCE` request leaves the store unchanged, so repeating it gives the same reply. |
| `GatewayProperties.HandlePreservesValid` | src/main/java/com/example/qiwitest/model/Client.java:14-18 | Every request keeps the table's constraints: one row per login, non-null passwords. |
| `GatewayProperties.HandleKeepsBalancesSet` | src/main/java/com/example/qiwitest/model/Client.java:20-31 | Every request keeps all stored balances non-null: rows created through the endpoint start at zero. |
| `GatewayProperties.DispatchedIsOk` | src/main/java/com/example/qiwitest/controller/ApiController.java:64-74 | When every stored balance is set, a request with login, password and a known type always gets 200: no exception escapes. |
| `GatewayProperties.ProtocolScenario` | src/test/java/com/example/qiwitest/integration/ApiControllerIntegrationTest.java:20-106 | The integration tests' steps in one store: create gives 0, creating it again gives 1, the balance with the right password gives 0 and a `balance` extra, with a wrong password 4, and for an unknown login 3. The tests expect the balance `"0.0000"`; the model answers `"0"`, because the column's scale is left out (see "Left out"). |
| `Decimals.Digits` | src/main/java/com/example/qiwitest/controller/ApiController.java:91 | The digits of a value are decimal digits with no leading zero. |
| `Decimals.ToString` | src/main/java/com/example/qiwitest/controller/ApiController.java:91 | `BigDecimal.toString`: plain notation for a scale of zero, or a positive scale with adjusted exponent at least -6; scientific otherwise. The string is never empty and starts with `-` exactly when the value is negative. `PlainHasScaleFractionDigits` and `ScientificHasOneExponent` state the two layouts. |
| `Decimals.DigitsRoundTrip` | src/main/java/com/example/qiwitest/controller/ApiController.java:91 | Reading the printed digits back gives the value. |
| `Decimals.PlainHasScaleFractionDigits` | src/main/java/com/example/qiwitest/controller/ApiController.java:91 | In plain notation the balance string has exactly `scale` digits after its single point, and no exponent. |
| `Decimals.ScientificHasOneExponent` | src/main/java/com/example/qiwitest/controller/ApiController.java:91 | In scientific notation the string has exactly one `E`, followed by `+` for a positive and `-` for a negative adjusted exponent (never zero), and then digits that read back as the exponent's magnitude. |
| `Decimals.ZeroStrings` | src/main/java/com/example/qiwitest/model/Client.java:30 | `BigDecimal.ZERO` prints as `"0"`; zero at scale 4 prints as `"0.0000"`. |
| `Decimals.SmallZeroIsScientific` | src/main/java/com/example/qiwitest/controller/ApiController.java:91 | Zero at scale 7 prints as `"0E-7"`. |
| `Decimals.NegativeScaleIsScientific` | src/main/java/com/example/qiwitest/controller/ApiController.java:91 | 12 at scale -3 prints as `"1.2E+4"`. |
| `Decimals.NegativePlain` | src/main/java/com/example/qiwitest/controller/ApiController.java:91 | -12345 at scale 2 prints as `"-123.45"`. |

## Left out

- XML reading and writing (element names, wrappers, media types, a malformed body): the model starts from an already-parsed `RequestDto` and ends at a `ResponseView` value.
- An extra without a `name` attribute is not represented. `name.equals(null)` is false, so such an extra never matches and behaves like one with any other name.
- A null element inside the extras list is not represented. Such an element would make the filter throw.
- Getters of `Client`, `RequestDto` and `ResponseDto` are field reads in the model and have no members of their own.
- `ResponseDtos.ResponseDto.SetExtras`: it takes a list value. It does not model `setExtras(null)`, nor the aliasing of the live list that `getExtras` hands out.
- `ClientServices.FindRow`: entities come back as values. The aliasing between a returned managed entity and the stored row is not modelled.
- `ClientServices.SaveRow`: requires a non-null login. A row with a null login cannot be keyed in the map, and the service always saves a login.
- `ClientServices.SaveRow`: always inserts and assigns a new identity. Saving an entity that already has an id (an update) is not modelled; the service never does it.
- `ClientServices.ClientService.IsPasswordCorrect`: takes a non-null password. In Java a null password with a non-null client throws, but `process` never passes null.
- The identity counter is an unbounded integer. The 64-bit range of `Long` is not modelled.
- The balance column's scale is not modelled: the store returns the balance exactly as saved. The figure `DECIMAL(19, 4)` comes from the table definition in `test/controllers/ServiceTest.java:69`; the schema of the `src/` application (`create.sql`) is not part of this model.
- `BigDecimal` arithmetic is not modelled. Only the value and its `toString` are, because the gateway never computes with balances.
- Concurrency is not modelled: `@Transactional`, the check-then-act window between lookup and create, and the reactive variants. Requests run one at a time. A concurrent create of the same login shows up only as a failing save (`Faults.saveFails`).
- Database outages are parameters (`Faults`), not part of the state.
- Logging is left out.
- `app/models/Client.java` is not part of this model. It is the JDBC variant of the same lookup/insert pair.
- The test scaffolding is not part of this model: containers, mocks, and the older framework's fake requests and views.
