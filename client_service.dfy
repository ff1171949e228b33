/** The account store (the CLIENTS table behind ClientRepository) and ClientService over it. */
module ClientServices {
  import opened Wrappers
  import opened Decimals
  import opened ClientModel

  /** The table as a value: the rows by their login, and the identity value the next insert receives. */
  datatype Store = Store(rows: map<string, ClientRecord>, nextId: int)

  /** The table's constraints: each row is stored under its own login (so the unique login column holds
      each login at most once), its password column is not null, and its identity has been assigned. */
  predicate Valid(s: Store) {
    forall k :: k in s.rows ==>
      s.rows[k].login == Some(k) && s.rows[k].password.Some?
      && s.rows[k].id.Some? && s.rows[k].id.value < s.nextId
  }

  /** ClientRepository.findByLogin with an orElse(null): the row whose login is `login`, or null;
      `fails` stands for the database failing the query. */
  function FindRow(s: Store, login: string, fails: bool): (r: Result<Option<ClientRecord>>)
    ensures r.Failure? <==> fails
    ensures Valid(s) && !fails ==>
      (r == Success(None) <==> forall k :: k in s.rows ==> s.rows[k].login != Some(login))
    ensures Valid(s) && r.Success? && r.value.Some? ==>
      r.value.value in s.rows.Values && r.value.value.login == Some(login)
  {
    if fails then Failure(DataAccessException)
    else if login in s.rows then Success(Some(s.rows[login]))
    else Success(None)
  }

  /** ClientRepository.save of a new entity: the database assigns the next identity and inserts the row,
      unless it fails, or the row has a null password or a login that is already taken. */
  function SaveRow(s: Store, c: ClientRecord, fails: bool): (r: (Result<ClientRecord>, Store))
    requires c.login.Some?
    ensures r.0.Failure? ==> r.1 == s
    ensures fails ==> r.0 == Failure(DataAccessException)
    ensures Valid(s) && !fails ==>
      (r.0.Success? <==> c.password.Some? && forall k :: k in s.rows ==> s.rows[k].login != c.login)
    ensures r.0.Success? ==>
      r.0.value == c.(id := Some(s.nextId))
      && r.1 == Store(s.rows[c.login.value := r.0.value], s.nextId + 1)
    ensures Valid(s) ==> Valid(r.1)
  {
    if fails then (Failure(DataAccessException), s)
    else if c.password.None? || c.login.value in s.rows then (Failure(DataIntegrityViolationException), s)
    else
      var saved := c.(id := Some(s.nextId));
      (Success(saved), Store(s.rows[c.login.value := saved], s.nextId + 1))
  }

  /** ClientService.createClient: save `new Client(login, password)`, passing any failure on. A success is
      the new client with the next identity and a zero balance, stored under its login; a failure leaves
      the store as it was. */
  function Create(s: Store, login: string, password: string, fails: bool): (r: (Result<ClientRecord>, Store))
    ensures fails ==> r.0 == Failure(DataAccessException)
    ensures !fails ==> (r.0.Success? <==> login !in s.rows)
    ensures r.0.Success? ==>
      r.0.value == ClientRecord(Some(s.nextId), Some(login), Some(password), Some(Zero))
      && r.1 == Store(s.rows[login := r.0.value], s.nextId + 1)
    ensures r.0.Failure? ==> r.1 == s
  {
    SaveRow(s, NewClient(Some(login), Some(password)), fails)
  }

  /** The repository: the table it fronts. */
  class ClientRepository {
    var rows: map<string, ClientRecord>
    var nextId: int

    function State(): Store
      reads this
    {
      Store(rows, nextId)
    }

    constructor (initial: Store)
      ensures State() == initial
    {
      rows, nextId := initial.rows, initial.nextId;
    }

    method FindByLogin(login: string, fails: bool) returns (r: Result<Option<ClientRecord>>)
      ensures r == FindRow(State(), login, fails)
    {
      if fails {
        return Failure(DataAccessException);
      }
      if login in rows {
        r := Success(Some(rows[login]));
      } else {
        r := Success(None);
      }
    }

    method Save(c: ClientRecord, fails: bool) returns (r: Result<ClientRecord>)
      requires c.login.Some?
      modifies this
      ensures (r, State()) == SaveRow(old(State()), c, fails)
    {
      if fails {
        return Failure(DataAccessException);
      }
      if c.password.None? || c.login.value in rows {
        return Failure(DataIntegrityViolationException);
      }
      r := Success(c.(id := Some(nextId)));
      rows := rows[c.login.value := r.value];
      nextId := nextId + 1;
    }
  }

  class ClientService {
    const repository: ClientRepository

    constructor (repository: ClientRepository)
      ensures this.repository == repository
    {
      this.repository := repository;
    }

    /** findByLogin: the stored client with this login or null, rethrowing a failure; it reads only. */
    method FindByLogin(login: string, fails: bool) returns (r: Result<Option<ClientRecord>>)
      ensures r == FindRow(repository.State(), login, fails)
    {
      r := repository.FindByLogin(login, fails);
    }

    /** createClient: builds the entity with the two-argument constructor and saves it. */
    method CreateClient(login: string, password: string, fails: bool) returns (r: Result<ClientRecord>)
      modifies repository
      ensures (r, repository.State()) == Create(old(repository.State()), login, password, fails)
    {
      var client := new Client.WithCredentials(Some(login), Some(password));
      r := repository.Save(client.Snapshot(), fails);
    }

    /** isPasswordCorrect: false for a null client, otherwise plaintext equality with the stored password. */
    static function IsPasswordCorrect(c: Option<ClientRecord>, password: string): (r: bool)
      ensures c.None? ==> !r
      ensures c.Some? ==> (r <==> c.value.password == Some(password))
    {
      c.Some? && c.value.password == Some(password)
    }

    /** getBalance: null for a null client, otherwise the client's balance (itself possibly null). */
    static function GetBalance(c: Option<ClientRecord>): (r: Option<Decimal>)
      ensures c.None? ==> r.None?
      ensures c.Some? ==> r == c.value.balance
    {
      if c.Some? then c.value.balance else None
    }
  }

  /** The unique login column: two rows with the same login are the same row. */
  lemma LoginsUnique(s: Store, k1: string, k2: string)
    requires Valid(s) && k1 in s.rows && k2 in s.rows
    requires s.rows[k1].login == s.rows[k2].login
    ensures k1 == k2
  {
  }

  /** After a successful create, the lookup finds the new client with the given password and a zero
      balance, and every other login is looked up as before. */
  lemma CreateThenFind(s: Store, login: string, password: string, other: string, fails: bool)
    requires Valid(s)
    requires Create(s, login, password, false).0.Success?
    ensures var s' := Create(s, login, password, false).1;
      && FindRow(s', login, false).Success?
      && FindRow(s', login, false).value.Some?
      && FindRow(s', login, false).value.value.password == Some(password)
      && FindRow(s', login, false).value.value.balance == Some(Zero)
      && (other != login ==> FindRow(s', other, fails) == FindRow(s, other, fails))
  {
  }

  /** Creating a login that is already stored fails with the uniqueness violation and changes nothing. */
  lemma CreateTakenLoginFails(s: Store, login: string, password: string)
    requires Valid(s) && login in s.rows
    ensures Create(s, login, password, false) == (Failure(DataIntegrityViolationException), s)
  {
  }
}
