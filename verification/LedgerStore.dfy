/** The ledger's on-disk form: flat record lists written in one piece and folded
    back into maps at boot. Hex and decimal spellings are identified with the
    values they spell. */
module LedgerStore {
  import opened Arith
  import opened Ledgers

  /** A version 1 record carries no signature. */
  datatype ChequeRecord = ChequeRecord(chequebook: Address, cumulative: nat, signature: seq<byte>)

  datatype AccountRecord = AccountRecord(account: Address, owed: nat, cheques: seq<ChequeRecord>)

  datatype OnDisk = OnDisk(version: nat, secret: seq<byte>, accounts: seq<AccountRecord>,
                           binding: seq<(Address, Address)>)

  datatype StoreError = UnsupportedVersion(version: nat) | BadSecretLength(length: nat)

  function ZeroSignature(): (z: seq<byte>)
    ensures |z| == 65 && forall i :: 0 <= i < 65 ==> z[i] == 0
  {
    seq(65, i => 0)
  }

  /** Rust's fixed-size arrays: every signature held in memory has 65 bytes. */
  predicate WellSized(last: map<Address, HeldCheque>) {
    forall cb :: cb in last ==> |last[cb].signature.bytes| == 65
  }

  // ---- What a file means ---------------------------------------------------

  function HeldFrom(r: ChequeRecord): HeldCheque {
    HeldCheque(r.cumulative, Signature(if |r.signature| == 65 then r.signature else ZeroSignature()))
  }

  /** A later record for the same key replaces an earlier one. */
  function ChequesOf(rs: seq<ChequeRecord>): map<Address, HeldCheque> {
    if rs == [] then map[] else
      var r := rs[|rs| - 1];
      ChequesOf(rs[..|rs| - 1])[r.chequebook := HeldFrom(r)]
  }

  function AccountsOf(rs: seq<AccountRecord>): map<Address, Account> {
    if rs == [] then map[] else
      var r := rs[|rs| - 1];
      AccountsOf(rs[..|rs| - 1])[r.account := Account(r.owed, 0, ChequesOf(r.cheques))]
  }

  function BindingOf(rs: seq<(Address, Address)>): map<Address, Address> {
    if rs == [] then map[] else
      var r := rs[|rs| - 1];
      BindingOf(rs[..|rs| - 1])[r.0 := r.1]
  }

  function Meaning(d: OnDisk): Result<Books, StoreError> {
    if d.version != 1 && d.version != 2 then Err(UnsupportedVersion(d.version))
    else if |d.secret| != 32 then Err(BadSecretLength(|d.secret|))
    else Ok(Books(AccountsOf(d.accounts), BindingOf(d.binding)))
  }

  // ---- What loading promises of the records themselves ----------------------

  /** No later record has the same key. */
  predicate LastCheque(rs: seq<ChequeRecord>, k: nat) {
    k < |rs| && forall j :: k < j < |rs| ==> rs[j].chequebook != rs[k].chequebook
  }

  predicate LastAccount(rs: seq<AccountRecord>, i: nat) {
    i < |rs| && forall j :: i < j < |rs| ==> rs[j].account != rs[i].account
  }

  predicate LastBinding(rs: seq<(Address, Address)>, i: nat) {
    i < |rs| && forall j :: i < j < |rs| ==> rs[j].0 != rs[i].0
  }

  /** Every recorded cumulative is kept, whatever became of its signature, and no other. */
  ghost predicate ChequesRestored(last: map<Address, HeldCheque>, rs: seq<ChequeRecord>) {
    && (forall k: nat :: LastCheque(rs, k) ==>
          && rs[k].chequebook in last
          && last[rs[k].chequebook].cumulative == rs[k].cumulative
          && last[rs[k].chequebook].signature.bytes
               == if |rs[k].signature| == 65 then rs[k].signature else ZeroSignature())
    && (forall cb :: cb in last ==> exists k: nat :: LastCheque(rs, k) && rs[k].chequebook == cb)
  }

  ghost predicate AccountsRestored(accounts: map<Address, Account>, rs: seq<AccountRecord>) {
    && (forall i: nat :: LastAccount(rs, i) ==>
          && rs[i].account in accounts
          && accounts[rs[i].account].owed == rs[i].owed && accounts[rs[i].account].reserved == 0
          && ChequesRestored(accounts[rs[i].account].last, rs[i].cheques))
    && (forall a :: a in accounts ==> exists i: nat :: LastAccount(rs, i) && rs[i].account == a)
  }

  ghost predicate BindingRestored(binding: map<Address, Address>, rs: seq<(Address, Address)>) {
    && (forall i: nat :: LastBinding(rs, i) ==> rs[i].0 in binding && binding[rs[i].0] == rs[i].1)
    && (forall cb :: cb in binding ==> exists i: nat :: LastBinding(rs, i) && rs[i].0 == cb)
  }

  lemma {:induction false} ChequeKept(rs: seq<ChequeRecord>, k: nat)
    requires LastCheque(rs, k)
    ensures rs[k].chequebook in ChequesOf(rs) && ChequesOf(rs)[rs[k].chequebook] == HeldFrom(rs[k])
    decreases |rs|
  {
    var n := |rs| - 1;
    if k < n {
      assert rs[n].chequebook != rs[k].chequebook;
      ChequeKept(rs[..n], k);
    }
  }

  lemma {:induction false} ChequeRecorded(rs: seq<ChequeRecord>, key: Address) returns (k: nat)
    requires key in ChequesOf(rs)
    ensures LastCheque(rs, k) && rs[k].chequebook == key
    decreases |rs|
  {
    var n := |rs| - 1;
    if key == rs[n].chequebook {
      k := n;
    } else {
      k := ChequeRecorded(rs[..n], key);
      assert forall j :: k < j < n ==> rs[..n][j].chequebook != rs[k].chequebook;
    }
  }

  lemma {:induction false} AccountKept(rs: seq<AccountRecord>, k: nat)
    requires LastAccount(rs, k)
    ensures rs[k].account in AccountsOf(rs) && AccountsOf(rs)[rs[k].account] == Account(rs[k].owed, 0, ChequesOf(rs[k].cheques))
    decreases |rs|
  {
    var n := |rs| - 1;
    if k < n {
      assert rs[n].account != rs[k].account;
      AccountKept(rs[..n], k);
    }
  }

  lemma {:induction false} AccountRecorded(rs: seq<AccountRecord>, key: Address) returns (k: nat)
    requires key in AccountsOf(rs)
    ensures LastAccount(rs, k) && rs[k].account == key
    decreases |rs|
  {
    var n := |rs| - 1;
    if key == rs[n].account {
      k := n;
    } else {
      k := AccountRecorded(rs[..n], key);
      assert forall j :: k < j < n ==> rs[..n][j].account != rs[k].account;
    }
  }

  lemma {:induction false} BindingKept(rs: seq<(Address, Address)>, k: nat)
    requires LastBinding(rs, k)
    ensures rs[k].0 in BindingOf(rs) && BindingOf(rs)[rs[k].0] == rs[k].1
    decreases |rs|
  {
    var n := |rs| - 1;
    if k < n {
      assert rs[n].0 != rs[k].0;
      BindingKept(rs[..n], k);
    }
  }

  lemma {:induction false} BindingRecorded(rs: seq<(Address, Address)>, key: Address) returns (k: nat)
    requires key in BindingOf(rs)
    ensures LastBinding(rs, k) && rs[k].0 == key
    decreases |rs|
  {
    var n := |rs| - 1;
    if key == rs[n].0 {
      k := n;
    } else {
      k := BindingRecorded(rs[..n], key);
      assert forall j :: k < j < n ==> rs[..n][j].0 != rs[k].0;
    }
  }

  lemma ChequesOfRestores(rs: seq<ChequeRecord>)
    ensures ChequesRestored(ChequesOf(rs), rs)
  {
    forall k: nat | LastCheque(rs, k)
      ensures rs[k].chequebook in ChequesOf(rs) && ChequesOf(rs)[rs[k].chequebook] == HeldFrom(rs[k])
    {
      ChequeKept(rs, k);
    }
    forall cb | cb in ChequesOf(rs)
      ensures exists k: nat :: LastCheque(rs, k) && rs[k].chequebook == cb
    {
      var k := ChequeRecorded(rs, cb);
    }
  }

  lemma AccountsOfRestores(rs: seq<AccountRecord>)
    ensures AccountsRestored(AccountsOf(rs), rs)
  {
    forall i: nat | LastAccount(rs, i)
      ensures rs[i].account in AccountsOf(rs)
      ensures AccountsOf(rs)[rs[i].account] == Account(rs[i].owed, 0, ChequesOf(rs[i].cheques))
      ensures ChequesRestored(ChequesOf(rs[i].cheques), rs[i].cheques)
    {
      AccountKept(rs, i);
      ChequesOfRestores(rs[i].cheques);
    }
    forall a | a in AccountsOf(rs)
      ensures exists i: nat :: LastAccount(rs, i) && rs[i].account == a
    {
      var i := AccountRecorded(rs, a);
    }
  }

  lemma BindingOfRestores(rs: seq<(Address, Address)>)
    ensures BindingRestored(BindingOf(rs), rs)
  {
    forall i: nat | LastBinding(rs, i)
      ensures rs[i].0 in BindingOf(rs) && BindingOf(rs)[rs[i].0] == rs[i].1
    {
      BindingKept(rs, i);
    }
    forall cb | cb in BindingOf(rs)
      ensures exists i: nat :: LastBinding(rs, i) && rs[i].0 == cb
    {
      var i := BindingRecorded(rs, cb);
    }
  }

  /** No cheque at or below a recorded cumulative is credited after a restart, by the
      account it was recorded for, nor by any other when the file binds the
      chequebook, and whatever signature the file held. */
  lemma RestartRefusesReplay(b: Books, d: OnDisk, i: nat, k: nat, who: Address, c: nat, sig: Signature)
    requires AccountsRestored(b.accounts, d.accounts) && BindingRestored(b.binding, d.binding)
    requires LastAccount(d.accounts, i) && LastCheque(d.accounts[i].cheques, k)
    requires c <= d.accounts[i].cheques[k].cumulative
    requires who == d.accounts[i].account
             || exists j: nat :: LastBinding(d.binding, j)
                  && d.binding[j] == (d.accounts[i].cheques[k].chequebook, d.accounts[i].account)
    ensures b.Credit(who, d.accounts[i].cheques[k].chequebook, c, sig).1.Err?
  {
    CreditAccepts(b, who, d.accounts[i].cheques[k].chequebook, c, sig);
  }

  // ---- Loading -------------------------------------------------------------

  method LoadCheques(rs: seq<ChequeRecord>) returns (last: map<Address, HeldCheque>)
    ensures last == ChequesOf(rs)
    ensures ChequesRestored(last, rs) && WellSized(last)
  {
    last := map[];
    for i := 0 to |rs|
      invariant last == ChequesOf(rs[..i])
      invariant WellSized(last)
    {
      assert rs[..i + 1][..i] == rs[..i];
      last := last[rs[i].chequebook := HeldFrom(rs[i])];
    }
    assert rs[..|rs|] == rs;
    ChequesOfRestores(rs);
  }

  /** Boot from a file of either version: every debt, cumulative and binding recorded
      is restored, no reservation is, and nothing else appears. */
  method Load(d: OnDisk) returns (r: Result<Books, StoreError>)
    ensures r == Meaning(d)
    ensures r == Err(UnsupportedVersion(d.version)) <==> d.version != 1 && d.version != 2
    ensures r == Err(BadSecretLength(|d.secret|)) <==> (d.version == 1 || d.version == 2) && |d.secret| != 32
    ensures r.Ok? <==> (d.version == 1 || d.version == 2) && |d.secret| == 32
    ensures r.Ok? ==> AccountsRestored(r.value.accounts, d.accounts) && BindingRestored(r.value.binding, d.binding)
    ensures r.Ok? ==> forall a :: a in r.value.accounts ==>
              r.value.accounts[a].reserved == 0 && WellSized(r.value.accounts[a].last)
  {
    if d.version != 1 && d.version != 2 {
      return Err(UnsupportedVersion(d.version));
    }
    if |d.secret| != 32 {
      return Err(BadSecretLength(|d.secret|));
    }
    var accounts: map<Address, Account> := map[];
    for i := 0 to |d.accounts|
      invariant accounts == AccountsOf(d.accounts[..i])
      invariant forall a :: a in accounts ==> accounts[a].reserved == 0 && WellSized(accounts[a].last)
    {
      assert d.accounts[..i + 1][..i] == d.accounts[..i];
      var last := LoadCheques(d.accounts[i].cheques);
      accounts := accounts[d.accounts[i].account := Account(d.accounts[i].owed, 0, last)];
    }
    assert d.accounts[..|d.accounts|] == d.accounts;
    var binding: map<Address, Address> := map[];
    for i := 0 to |d.binding|
      invariant binding == BindingOf(d.binding[..i])
    {
      assert d.binding[..i + 1][..i] == d.binding[..i];
      binding := binding[d.binding[i].0 := d.binding[i].1];
    }
    assert d.binding[..|d.binding|] == d.binding;
    AccountsOfRestores(d.accounts);
    BindingOfRestores(d.binding);
    r := Ok(Books(accounts, binding));
  }

  // ---- Writing -------------------------------------------------------------

  /** Taking a key off the list of those still to be written adds its entry. */
  lemma OneMore<K, V>(m: map<K, V>, todo: set<K>, k: K)
    requires k in todo && todo <= m.Keys
    ensures m - (todo - {k}) == (m - todo)[k := m[k]]
  {
  }

  lemma ChequesSnoc(rs: seq<ChequeRecord>, r: ChequeRecord)
    ensures ChequesOf(rs + [r]) == ChequesOf(rs)[r.chequebook := HeldFrom(r)]
  {
    assert (rs + [r])[..|rs|] == rs;
  }

  function RecordOf(cb: Address, h: HeldCheque): ChequeRecord {
    ChequeRecord(cb, h.cumulative, h.signature.bytes)
  }

  method ChequeRecords(last: map<Address, HeldCheque>) returns (rs: seq<ChequeRecord>)
    requires WellSized(last)
    ensures ChequesOf(rs) == last && |rs| == |last|
  {
    rs := [];
    var todo := last.Keys;
    while todo != {}
      invariant todo <= last.Keys
      invariant ChequesOf(rs) == last - todo
      invariant |rs| + |todo| == |last|
      decreases todo
    {
      var cb :| cb in todo;
      var r := RecordOf(cb, last[cb]);
      assert HeldFrom(r) == last[cb];
      ChequesSnoc(rs, r);
      OneMore(last, todo, cb);
      rs, todo := rs + [r], todo - {cb};
    }
    assert last - {} == last;
  }

  lemma KeptOneMore(accounts: map<Address, Account>, todo: set<Address>, a: Address)
    requires a in todo && todo <= accounts.Keys
    ensures Kept(accounts - (todo - {a})) ==
            if Remembered(accounts[a]) then Kept(accounts - todo)[a := accounts[a].(reserved := 0)]
            else Kept(accounts - todo)
  {
    OneMore(accounts, todo, a);
  }

  lemma AccountsSnoc(rs: seq<AccountRecord>, r: AccountRecord)
    ensures AccountsOf(rs + [r]) == AccountsOf(rs)[r.account := Account(r.owed, 0, ChequesOf(r.cheques))]
  {
    assert (rs + [r])[..|rs|] == rs;
  }

  method AccountRecords(accounts: map<Address, Account>) returns (rs: seq<AccountRecord>)
    requires forall a :: a in accounts ==> WellSized(accounts[a].last)
    ensures AccountsOf(rs) == Kept(accounts)
  {
    rs := [];
    var todo := accounts.Keys;
    while todo != {}
      invariant todo <= accounts.Keys
      invariant AccountsOf(rs) == Kept(accounts - todo)
      decreases todo
    {
      var a :| a in todo;
      KeptOneMore(accounts, todo, a);
      todo := todo - {a};
      if Remembered(accounts[a]) {
        var cheques := ChequeRecords(accounts[a].last);
        var r := AccountRecord(a, accounts[a].owed, cheques);
        AccountsSnoc(rs, r);
        rs := rs + [r];
      }
    }
    assert accounts - {} == accounts;
  }

  lemma BindingSnoc(rs: seq<(Address, Address)>, r: (Address, Address))
    ensures BindingOf(rs + [r]) == BindingOf(rs)[r.0 := r.1]
  {
    assert (rs + [r])[..|rs|] == rs;
  }

  method BindingRecords(binding: map<Address, Address>) returns (rs: seq<(Address, Address)>)
    ensures BindingOf(rs) == binding
  {
    rs := [];
    var todo := binding.Keys;
    while todo != {}
      invariant todo <= binding.Keys
      invariant BindingOf(rs) == binding - todo
      decreases todo
    {
      var cb :| cb in todo;
      BindingSnoc(rs, (cb, binding[cb]));
      OneMore(binding, todo, cb);
      rs, todo := rs + [(cb, binding[cb])], todo - {cb};
    }
    assert binding - {} == binding;
  }

  /** The file a ledger writes reads back as its durable half, whatever order
      the maps are enumerated in. */
  method Snapshot(b: Books, secret: seq<byte>) returns (d: OnDisk)
    requires |secret| == 32
    requires forall a :: a in b.accounts ==> WellSized(b.accounts[a].last)
    ensures Meaning(d) == Ok(b.Durable())
    ensures d.secret == secret && d.version == 2
  {
    var accounts := AccountRecords(b.accounts);
    var binding := BindingRecords(b.binding);
    d := OnDisk(2, secret, accounts, binding);
  }

  /** Restarting forgets reservations and nothing else, and an account that neither
      owes nor has paid takes no room on disk. */
  lemma DurableKeepsAllButReservations(b: Books, a: Address)
    ensures b.Durable().Get(a) == b.Get(a).(reserved := 0)
    ensures a in b.Durable().accounts <==> b.Owed(a) > 0 || b.Get(a).last != map[]
    ensures b.Durable().binding == b.binding
    ensures b.Durable().Durable() == b.Durable()
  {
  }
}
