/** The account entity: one row of table CLIENTS. */
module ClientModel {
  import opened Wrappers
  import opened Decimals

  /** What a Client holds, as a value: the state the repository persists and returns. */
  datatype ClientRecord = ClientRecord(
    id: Option<int>,
    login: Option<string>,
    password: Option<string>,
    balance: Option<Decimal>)

  /** The record `new Client(login, password)` holds: no identity yet, balance BigDecimal.ZERO. */
  function NewClient(login: Option<string>, password: Option<string>): ClientRecord {
    ClientRecord(None, login, password, Some(Zero))
  }

  /** The mutable entity. Its getters are the field reads `id`, `login`, `password` and `balance`. */
  class Client {
    var id: Option<int>
    var login: Option<string>
    var password: Option<string>
    var balance: Option<Decimal>

    function Snapshot(): (r: ClientRecord)
      reads this
    {
      ClientRecord(id, login, password, balance)
    }

    /** The no-argument constructor: every field null except the balance, which its initializer sets to zero. */
    constructor ()
      ensures id == None && login == None && password == None
      ensures balance == Some(Zero)
    {
      id, login, password := None, None, None;
      balance := Some(Zero);
    }

    /** Client(login, password): the given credentials and a zero balance. */
    constructor WithCredentials(login: Option<string>, password: Option<string>)
      ensures Snapshot() == NewClient(login, password)
      ensures this.login == login && this.password == password && balance == Some(Zero) && id == None
    {
      id := None;
      this.login := login;
      this.password := password;
      balance := Some(Zero);
    }

    /** Client(login, password, balance): exactly the given values. */
    constructor WithBalance(login: Option<string>, password: Option<string>, balance: Option<Decimal>)
      ensures Snapshot() == ClientRecord(None, login, password, balance)
    {
      id := None;
      this.login := login;
      this.password := password;
      this.balance := balance;
    }

    method SetId(id: Option<int>)
      modifies this
      ensures Snapshot() == old(Snapshot()).(id := id)
    {
      this.id := id;
    }

    method SetLogin(login: Option<string>)
      modifies this
      ensures Snapshot() == old(Snapshot()).(login := login)
    {
      this.login := login;
    }

    method SetPassword(password: Option<string>)
      modifies this
      ensures Snapshot() == old(Snapshot()).(password := password)
    {
      this.password := password;
    }

    method SetBalance(balance: Option<Decimal>)
      modifies this
      ensures Snapshot() == old(Snapshot()).(balance := balance)
    {
      this.balance := balance;
    }
  }
}
