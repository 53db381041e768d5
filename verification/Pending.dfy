/**
 Tables of pending requests (src/control/mod.rs): each entry holds what was
 asked and the one-shot channel its caller waits on. A channel is named by a
 token; everything put into channels is kept as a log. Hash maps are visited in
 an order that is not specified, so each visit takes the order as an argument.
 */
module Pending {
  import opened Bytes

  type Token = nat

  datatype Entry<+Op> = Entry(op: Op, token: Token)

  type Table<Op> = map<u32, Entry<Op>>

  datatype Outcome<+R> = Outcome(token: Token, result: R)

  // ----- Visiting a hash map -----------------------------------------------

  /** `order` visits each of `keys` once. */
  ghost predicate Enumerates<K(!new)>(order: seq<K>, keys: set<K>) {
    && (forall i, j :: 0 <= i < j < |order| ==> order[i] != order[j])
    && (forall k :: k in order <==> k in keys)
  }

  /** The keys of `chosen` in the order they are visited. */
  function Listed<K(==, !new)>(order: seq<K>, chosen: set<K>): (r: seq<K>)
    ensures forall k :: k in r <==> k in order && k in chosen
  {
    if order == [] then []
    else (if order[0] in chosen then [order[0]] else []) + Listed(order[1..], chosen)
  }

  lemma {:induction false} ListedEnumerates<K(!new)>(order: seq<K>, keys: set<K>, chosen: set<K>)
    requires Enumerates(order, keys) && chosen <= keys
    ensures Enumerates(Listed(order, chosen), chosen)
    decreases |order|
  {
    if order != [] {
      var head, tail := order[0], order[1..];
      assert Enumerates(tail, keys - {head});
      ListedEnumerates(tail, keys - {head}, chosen - {head});
      ListedIgnores(tail, chosen, head);
    }
  }

  lemma {:induction false} ListedIgnores<K(!new)>(order: seq<K>, chosen: set<K>, k: K)
    requires k !in order
    ensures Listed(order, chosen - {k}) == Listed(order, chosen)
  {
    if order != [] {
      ListedIgnores(order[1..], chosen, k);
    }
  }

  lemma {:induction false} ListedAppend<K(!new)>(a: seq<K>, b: seq<K>, chosen: set<K>)
    ensures Listed(a + b, chosen) == Listed(a, chosen) + Listed(b, chosen)
  {
    if a == [] {
      assert a + b == b;
    } else {
      assert (a + b)[1..] == a[1..] + b;
      ListedAppend(a[1..], b, chosen);
    }
  }

  // ----- Completing entries ------------------------------------------------

  /** `ids` are distinct entries of the table. */
  ghost predicate Picks<Op>(table: Table<Op>, ids: seq<u32>) {
    && (forall i, j :: 0 <= i < j < |ids| ==> ids[i] != ids[j])
    && (forall id :: id in ids ==> id in table)
  }

  /** One outcome for each of `ids`. */
  function Outcomes<Op, R>(table: Table<Op>, ids: seq<u32>, reply: Op -> R): (r: seq<Outcome<R>>)
    requires forall id :: id in ids ==> id in table
    ensures |r| == |ids|
  {
    seq(|ids|, i requires 0 <= i < |ids| => Outcome(table[ids[i]].token, reply(table[ids[i]].op)))
  }

  function Remaining<Op>(table: Table<Op>, ids: seq<u32>): Table<Op> {
    table - (set id | id in ids)
  }

  /** The entries whose caller is among those who gave up. */
  function GivenUp<Op>(table: Table<Op>, gone: set<Token>): (ids: set<u32>)
    ensures ids <= table.Keys
  {
    set id | id in table && table[id].token in gone
  }

  ghost function Waiters<Op>(table: Table<Op>, token: Token): set<u32> {
    set id | id in table && table[id].token == token
  }

  /** How many entries wait on `token`. */
  ghost function Waiting<Op>(table: Table<Op>, token: Token): nat { |Waiters(table, token)| }

  /** How often something was put into `token`. */
  ghost function Logged<R>(log: seq<Outcome<R>>, token: Token): nat {
    if log == [] then 0 else (if log[0].token == token then 1 else 0) + Logged(log[1..], token)
  }

  lemma {:induction false} LoggedAppend<R>(a: seq<Outcome<R>>, b: seq<Outcome<R>>, token: Token)
    ensures Logged(a + b, token) == Logged(a, token) + Logged(b, token)
  {
    if a == [] {
      assert a + b == b;
    } else {
      assert (a + b)[1..] == a[1..] + b;
      LoggedAppend(a[1..], b, token);
    }
  }

  lemma WaitingWithout<Op>(table: Table<Op>, id: u32, token: Token)
    requires id in table
    ensures Waiting(table, token) == Waiting(table - {id}, token) + (if table[id].token == token then 1 else 0)
  {
    assert Waiters(table - {id}, token) == Waiters(table, token) - {id};
  }

  /** A new entry under a free identifier adds one waiter. */
  lemma WaitingWith<Op>(table: Table<Op>, id: u32, entry: Entry<Op>, token: Token)
    requires id !in table
    ensures Waiting(table[id := entry], token) == Waiting(table, token) + (if entry.token == token then 1 else 0)
  {
    WaitingWithout(table[id := entry], id, token);
    assert table[id := entry] - {id} == table;
  }

  lemma WaitingNowhere<Op>(table: Table<Op>, token: Token)
    requires table == map[]
    ensures Waiting(table, token) == 0
  {
    assert Waiters(table, token) == {};
  }

  /** Completing entries moves each waiter into the log, once. */
  lemma {:induction false} CompletingConserves<Op, R>(table: Table<Op>, ids: seq<u32>, reply: Op -> R, token: Token)
    requires Picks(table, ids)
    ensures Waiting(table, token) ==
            Waiting(Remaining(table, ids), token) + Logged(Outcomes(table, ids, reply), token)
    decreases |ids|
  {
    if ids == [] {
      assert Remaining(table, ids) == table;
    } else {
      var id, rest, smaller := ids[0], ids[1..], table - {ids[0]};
      WaitingWithout(table, id, token);
      CompletingConserves(smaller, rest, reply, token);
      assert Remaining(smaller, rest) == Remaining(table, ids);
      assert Outcomes(table, ids, reply)[1..] == Outcomes(smaller, rest, reply);
    }
  }
}
