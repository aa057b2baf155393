/** The account ledger (models/user-account.go) and the transaction record
    (models/transaction.go). Balances and amounts are integer cents. */
module Models {
  import opened Wrappers
  import opened Constants

  /** A stored transaction. */
  datatype Transaction = Transaction(
    accountId: int,
    reference: string,
    amount: int,
    direction: string,
    status: TransactionStatus)

  /** An account: its identity never changes, its balance changes only
      through Credit and Debit. */
  class UserAccount {
    const id: int
    var balance: int

    constructor (id: int, balance: int)
      ensures this.id == id && this.balance == balance
    {
      this.id := id;
      this.balance := balance;
    }

    /** Adds the amount; it cannot fail. */
    method Credit(amount: int)
      modifies this
      ensures balance == old(balance) + amount
    {
      balance := balance + amount;
    }

    /** Subtracts the amount unless the balance is strictly less than it, in
        which case the balance is left alone and the debit is refused. */
    method Debit(amount: int) returns (err: Option<Error>)
      modifies this
      ensures err == None <==> old(balance) >= amount
      ensures err != None ==> err == Some(ErrInsufficientFunds) && balance == old(balance)
      ensures err == None ==> balance == old(balance) - amount
      ensures old(balance) >= 0 ==> balance >= 0
    {
      if balance < amount {
        return Some(ErrInsufficientFunds);
      }
      balance := balance - amount;
      err := None;
    }
  }

  /** A credit of an amount followed by a debit of the same amount gives the
      balance back, for every non-negative starting balance. */
  method CreditThenDebitRestores(id: int, balance: int, amount: int) returns (err: Option<Error>, final: int, finalId: int)
    ensures balance >= 0 ==> err == None && final == balance
    ensures finalId == id
  {
    var account := new UserAccount(id, balance);
    account.Credit(amount);
    err := account.Debit(amount);
    final, finalId := account.balance, account.id;
  }

  /** The comparison is strict: debiting the whole balance is allowed and
      leaves zero. */
  method DebitWholeBalance(id: int, balance: int) returns (err: Option<Error>, final: int)
    ensures err == None && final == 0
  {
    var account := new UserAccount(id, balance);
    err := account.Debit(balance);
    final := account.balance;
  }

  /** One cent more than the balance is refused and changes nothing. */
  method DebitBeyondBalance(id: int, balance: int) returns (err: Option<Error>, final: int)
    ensures err == Some(ErrInsufficientFunds) && final == balance
  {
    var account := new UserAccount(id, balance);
    err := account.Debit(balance + 1);
    final := account.balance;
  }
}
