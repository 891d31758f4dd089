/** The two stored entities and the invariants the store keeps about them. */
module Records {
  import opened Calendar

  /** A row of the users table. `passwordHash` is whatever the hashing
      function made of the password; the plaintext is never stored. */
  datatype User = User(id: int, username: string, email: string, passwordHash: string)

  /** A row of the expenses table, owned by the user `userId`. */
  datatype Expense = Expense(id: int, amount: real, category: string, note: string,
                             createdAt: Timestamp, userId: int)

  /** Users are numbered 1, 2, ... in insertion order (SQLite's row ids, as
      no row is ever deleted); usernames and emails are non-empty and unique. */
  ghost predicate UsersValid(users: seq<User>) {
    (forall i :: 0 <= i < |users| ==>
       users[i].id == i + 1 && users[i].username != [] && users[i].email != [])
    && (forall i, j :: 0 <= i < j < |users| ==>
          users[i].username != users[j].username && users[i].email != users[j].email)
  }

  /** Expenses are numbered in insertion order, have a positive amount and a
      non-empty category, and belong to one of the `userCount` users. */
  ghost predicate ExpensesValid(es: seq<Expense>, userCount: int) {
    forall i :: 0 <= i < |es| ==>
      es[i].id == i + 1 && es[i].amount > 0.0 && es[i].category != []
      && 1 <= es[i].userId <= userCount
  }

  /** `Expense.query.filter_by(user_id=caller)`: the caller's expenses, in store order. */
  function OwnedBy(es: seq<Expense>, caller: int): (r: seq<Expense>)
    ensures forall e :: e in r <==> e in es && e.userId == caller
    ensures forall e :: e in multiset(r) ==> e.userId == caller
    ensures |r| <= |es|
  {
    if es == [] then []
    else (if es[0].userId == caller then [es[0]] else []) + OwnedBy(es[1..], caller)
  }
}
