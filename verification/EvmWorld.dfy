/**
 The state that contracts act on: accounts, logs and the refund counter.  A
 snapshot is the state itself.
 */
module EvmWorld {
  import opened Bytes
  import opened EvmContract
  import opened EvmStorageGas

  datatype Log = Log(address: Address, topics: seq<nat>, data: seq<Byte>)

  /** `committed` is the storage as it was before the transaction. */
  datatype Account = Account(
    balance: nat,
    nonce: nat,
    code: seq<Byte>,
    storage: map<nat, nat>,
    committed: map<nat, nat>,
    suicided: bool)

  const NO_ACCOUNT := Account(0, 0, [], map[], map[], false)

  datatype World = World(accounts: map<Address, Account>, refund: int, logs: seq<Log>) {
    predicate Exist(a: Address)
    {
      a in accounts
    }

    function At(a: Address): (account: Account)
    {
      if a in accounts then accounts[a] else NO_ACCOUNT
    }

    predicate Empty(a: Address)
    {
      At(a).balance == 0 && At(a).nonce == 0 && At(a).code == []
    }

    function With(a: Address, account: Account): (w: World)
    {
      this.(accounts := accounts[a := account])
    }

    function GetState(a: Address, slot: nat): (value: nat)
    {
      Slot(At(a).storage, slot)
    }

    function GetCommittedState(a: Address, slot: nat): (value: nat)
    {
      Slot(At(a).committed, slot)
    }

    function AddBalance(a: Address, amount: nat): (w: World)
    {
      With(a, At(a).(balance := At(a).balance + amount))
    }

    function SubBalance(a: Address, amount: nat): (w: World)
      requires amount <= At(a).balance
    {
      With(a, At(a).(balance := At(a).balance - amount))
    }

    function SetNonce(a: Address, nonce: nat): (w: World)
    {
      With(a, At(a).(nonce := nonce))
    }

    function SetCode(a: Address, code: seq<Byte>): (w: World)
    {
      With(a, At(a).(code := code))
    }

    function SetState(a: Address, slot: nat, value: nat): (w: World)
    {
      With(a, At(a).(storage := At(a).storage[slot := value]))
    }

    function Suicide(a: Address): (w: World)
    {
      if a in accounts then With(a, At(a).(balance := 0, suicided := true)) else this
    }

    /** A new account keeps the balance that the address had. */
    function CreateAccount(a: Address): (w: World)
    {
      With(a, NO_ACCOUNT.(balance := At(a).balance))
    }

    /** The state panics if the counter would fall below zero. */
    function SubRefund(amount: nat): (w: World)
      requires amount <= refund
    {
      this.(refund := refund - amount)
    }

    function AddRefund(amount: int): (w: World)
    {
      this.(refund := refund + amount)
    }

    function AddLog(log: Log): (w: World)
    {
      this.(logs := logs + [log])
    }
  }

  function Slot(storage: map<nat, nat>, slot: nat): (value: nat)
  {
    if slot in storage then storage[slot] else 0
  }

  /** `CanTransfer` and `Transfer`. */
  predicate CanTransfer(w: World, a: Address, amount: nat)
  {
    amount <= w.At(a).balance
  }

  function Transfer(w: World, from: Address, to: Address, amount: nat): (w': World)
    requires CanTransfer(w, from, amount)
  {
    w.SubBalance(from, amount).AddBalance(to, amount)
  }

  /** Balances, nonces, code, storage, logs and refunds are the same; empty accounts may have appeared. */
  ghost predicate Untouched(w: World, w': World)
  {
    w'.refund == w.refund && w'.logs == w.logs && forall a: Address :: w'.At(a) == w.At(a)
  }

  lemma UntouchedTrans(a: World, b: World, c: World)
    requires Untouched(a, b) && Untouched(b, c)
    ensures Untouched(a, c)
  {
  }

  /** Creating a missing account, and moving nothing, touch nothing. */
  lemma TouchOnly(w: World, a: Address, b: Address)
    ensures Untouched(w, w)
    ensures !w.Exist(a) ==> Untouched(w, w.CreateAccount(a))
    ensures Untouched(w, w.AddBalance(a, 0)) && Untouched(w, Transfer(w, a, b, 0))
  {
  }

  /* ---- The refund counter ---- */

  /** The slots that are zero now and were not before the transaction. */
  ghost function Cleared(w: World): (slots: set<(Address, nat)>)
  {
    set a, s | a in w.accounts && s in w.accounts[a].committed &&
               w.accounts[a].committed[s] != 0 && w.GetState(a, s) == 0 :: (a, s)
  }

  /** The refund counter covers all that may still be taken back. */
  ghost predicate RefundCovers(w: World)
  {
    w.refund >= CLEAR_REFUND * |Cleared(w)|
  }

  lemma CoversShrinks(w: World, w': World)
    requires RefundCovers(w) && Cleared(w') <= Cleared(w) && w'.refund >= w.refund
    ensures RefundCovers(w')
  {
    SubsetSize(Cleared(w'), Cleared(w));
  }

  lemma {:induction false} SubsetSize(a: set<(Address, nat)>, b: set<(Address, nat)>)
    requires a <= b
    ensures |a| <= |b|
  {
    if a != {} {
      var x :| x in a;
      SubsetSize(a - {x}, b - {x});
    }
  }

  /** Changing anything but storage keeps the refund covered. */
  lemma CoversWith(w: World, a: Address, account: Account)
    requires RefundCovers(w)
    requires (account.storage == w.At(a).storage && account.committed == w.At(a).committed) ||
             account.committed == map[]
    ensures RefundCovers(w.With(a, account))
  {
    CoversShrinks(w, w.With(a, account));
  }

  /** An SSTORE keeps the refund counter covered, so it never falls below zero. */
  lemma CoversStore(w: World, a: Address, slot: nat, value: nat, refund: int)
    requires RefundCovers(w)
    requires var o, c := w.GetCommittedState(a, slot), w.GetState(a, slot);
             refund >= Revocable(o, value) - Revocable(o, c)
    ensures var w' := w.AddRefund(refund).SetState(a, slot, value);
            RefundCovers(w') && w.refund + refund >= 0
  {
    hide Cleared, Revocable;
    var w' := w.AddRefund(refund).SetState(a, slot, value);
    var o, c := w.GetCommittedState(a, slot), w.GetState(a, slot);
    ClearedStore(w, a, slot, value, refund);
    SizeWithout(Cleared(w), (a, slot));
    SizeWithout(Cleared(w'), (a, slot));
    Earned(o, c);
    Earned(o, value);
  }

  /** The counter can bear what a write to a cleared slot takes off it. */
  lemma CoversRevoked(w: World, a: Address, slot: nat)
    requires RefundCovers(w)
    ensures w.refund >= Revocable(w.GetCommittedState(a, slot), w.GetState(a, slot))
  {
    ClearedStore(w, a, slot, 0, 0);
    SizeWithout(Cleared(w), (a, slot));
    hide Cleared;
  }

  /** At the beginning of a transaction, when nothing has been written yet, the counter covers what may be taken back. */
  lemma CoversAtStart(w: World)
    requires w.refund >= 0 && forall a :: a in w.accounts ==> w.accounts[a].storage == w.accounts[a].committed
    ensures RefundCovers(w)
  {
    assert Cleared(w) == {};
  }

  lemma Earned(original: nat, value: nat)
    ensures Revocable(original, value) == if original != 0 && value == 0 then CLEAR_REFUND else 0
  {
  }

  lemma ClearedStore(w: World, a: Address, slot: nat, value: nat, refund: int)
    ensures var w' := w.AddRefund(refund).SetState(a, slot, value);
            var o := w.GetCommittedState(a, slot);
            Cleared(w') - {(a, slot)} == Cleared(w) - {(a, slot)} &&
            ((a, slot) in Cleared(w) <==> o != 0 && w.GetState(a, slot) == 0) &&
            ((a, slot) in Cleared(w') <==> o != 0 && value == 0)
  {
  }

  lemma SizeWithout(s: set<(Address, nat)>, x: (Address, nat))
    ensures |s| == |s - {x}| + if x in s then 1 else 0
  {
    if x !in s {
      assert s - {x} == s;
    }
  }

  /* ---- The supply ---- */

  ghost function Sum(accounts: map<Address, Account>): (total: nat)
    decreases |accounts|
  {
    if accounts == map[] then 0
    else
      var a :| a in accounts;
      assert (accounts - {a}).Keys == accounts.Keys - {a};
      assert |accounts - {a}| == |(accounts - {a}).Keys| && |accounts| == |accounts.Keys|;
      accounts[a].balance + Sum(accounts - {a})
  }

  lemma {:induction false} SumAt(accounts: map<Address, Account>, a: Address)
    requires a in accounts
    ensures Sum(accounts) == accounts[a].balance + Sum(accounts - {a})
    decreases |accounts|
  {
    var b :| b in accounts && Sum(accounts) == accounts[b].balance + Sum(accounts - {b});
    if b != a {
      assert (accounts - {b}).Keys == accounts.Keys - {b};
      assert |accounts - {b}| == |(accounts - {b}).Keys| && |accounts| == |accounts.Keys|;
      SumAt(accounts - {b}, a);
      SumAt(accounts - {a}, b);
      assert accounts - {a} - {b} == accounts - {b} - {a};
    }
  }

  /** All the value there is. */
  ghost function Supply(w: World): (total: nat)
  {
    Sum(w.accounts)
  }

  lemma SupplyWith(w: World, a: Address, account: Account)
    ensures Supply(w.With(a, account)) == Supply(w) - w.At(a).balance + account.balance
  {
    var after := w.With(a, account).accounts;
    SumAt(after, a);
    assert after - {a} == w.accounts - {a};
    if a in w.accounts {
      SumAt(w.accounts, a);
    } else {
      assert w.accounts - {a} == w.accounts;
    }
  }

  /** A transfer moves value and makes none; creating an account, or setting its fields, neither. */
  lemma SupplyTransfer(w: World, from: Address, to: Address, amount: nat)
    requires CanTransfer(w, from, amount)
    ensures Supply(Transfer(w, from, to, amount)) == Supply(w)
  {
    hide Supply;
    var mid := w.SubBalance(from, amount);
    SupplyWith(w, from, w.At(from).(balance := w.At(from).balance - amount));
    SupplyWith(mid, to, mid.At(to).(balance := mid.At(to).balance + amount));
  }

  /** Self-destruction moves the balance to the heir; naming oneself as heir destroys exactly that balance. */
  lemma SupplyDestroy(w: World, self: Address, heir: Address)
    ensures var w' := w.AddBalance(heir, w.At(self).balance).Suicide(self);
            Supply(w') == Supply(w) - if heir == self then w.At(self).balance else 0
  {
    hide Supply;
    var mid := w.AddBalance(heir, w.At(self).balance);
    SupplyWith(w, heir, w.At(heir).(balance := w.At(heir).balance + w.At(self).balance));
    SupplyWith(mid, self, mid.At(self).(balance := 0, suicided := true));
  }
}
