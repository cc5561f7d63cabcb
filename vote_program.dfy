/** The program as it runs: a vote account is an object whose four fields
    the instruction handlers overwrite in place, and the ledger maps each
    URL to the account at its derived address. Each handler is proved to
    have exactly the effect that VoteSpec.Execute gives it. */
module VoteProgram {
  import opened RustInt
  import opened VoteSpec

  /** One vote account (lib.rs `Account<VoteState>`), updated in place. */
  class VoteAccount {
    var score: I64
    var bump: U8
    var createdAt: I64
    var totalVotes: U64

    /** The account's data as a value. */
    function Value(): VoteState
      reads this
    {
      VoteState(score, bump, createdAt, totalVotes)
    }

    /** A newly created account: the system program hands it over zeroed. */
    constructor Zeroed()
      ensures Value() == VoteState(0, 0, 0, 0)
    {
      score, bump, createdAt, totalVotes := 0, 0, 0, 0;
    }

    /** `Initialize::initialize`: zero both counters, record the bump of the
        derived address and the clock's time. */
    method Initialize(bump: U8, now: I64)
      modifies this
      ensures Value() == Initial(bump, now)
    {
      this.score := 0;
      this.bump := bump;
      this.createdAt := now;
      this.totalVotes := 0;
    }

    /** `Vote::upvote`: the score is overwritten before the vote count is
        checked, so an Overflow on the count leaves the score already
        incremented (the runtime's rollback undoes it, see Ledger). */
    method Upvote() returns (r: Result<()>)
      modifies this
      ensures r.Ok? <==> Cast(old(Value()), VoteType.Upvote).Ok?
      ensures r.Ok? ==> Value() == Cast(old(Value()), VoteType.Upvote).value
      ensures r.Err? ==> r.error == Overflow
      ensures r.Err? ==>
        && bump == old(bump) && createdAt == old(createdAt) && totalVotes == old(totalVotes)
        && score == if old(score) < I64_MAX then old(score) + 1 else old(score)
    {
      var s := CheckedAddI64(score, 1);
      if s.None? {
        return Err(Overflow);
      }
      score := s.value;
      var t := CheckedAddU64(totalVotes, 1);
      if t.None? {
        return Err(Overflow);
      }
      totalVotes := t.value;
      return Ok(());
    }

    /** `Vote::downvote`: as Upvote, with the score decremented. */
    method Downvote() returns (r: Result<()>)
      modifies this
      ensures r.Ok? <==> Cast(old(Value()), VoteType.Downvote).Ok?
      ensures r.Ok? ==> Value() == Cast(old(Value()), VoteType.Downvote).value
      ensures r.Err? ==> r.error == Overflow
      ensures r.Err? ==>
        && bump == old(bump) && createdAt == old(createdAt) && totalVotes == old(totalVotes)
        && score == if old(score) > I64_MIN then old(score) - 1 else old(score)
    {
      var s := CheckedSubI64(score, 1);
      if s.None? {
        return Err(Overflow);
      }
      score := s.value;
      var t := CheckedAddU64(totalVotes, 1);
      if t.None? {
        return Err(Overflow);
      }
      totalVotes := t.value;
      return Ok(());
    }

    /** The runtime discarding a failed instruction's writes to this
        account: its data goes back to the snapshot taken before. */
    method Restore(saved: VoteState)
      modifies this
      ensures Value() == saved
    {
      score, bump, createdAt, totalVotes := saved.score, saved.bump, saved.createdAt, saved.totalVotes;
    }
  }

  /** The program's vote accounts, one per URL at the address derived from
      it, and the three instructions of `vote_program`. */
  class Ledger {
    var accounts: map<Url, VoteAccount>

    /** Distinct URLs derive distinct addresses, so no two URLs share an
        account object. */
    ghost predicate Valid()
      reads this
    {
      forall u, w :: u in accounts && w in accounts && u != w ==> accounts[u] != accounts[w]
    }

    /** The data of every account, by URL. */
    ghost function Storage(): Storage
      reads this, accounts.Values
    {
      map u | u in accounts :: accounts[u].Value()
    }

    /** A ledger holding no vote accounts. */
    constructor ()
      ensures Valid() && accounts == map[]
    {
      accounts := map[];
    }

    /** The `initialize` instruction. Anchor's `init` constraint derives the
        address from the URL (the runtime refuses a seed over MAX_SEED_LEN
        bytes) and creates the account there, failing if one is already
        there; then the handler rejects an empty URL, which rolls the
        creation back, and otherwise fills in the new account. */
    method Initialize(url: Url, bump: U8, now: I64) returns (status: Status)
      requires Valid()
      modifies this
      ensures Valid() && fresh(accounts.Values - old(accounts.Values))
      ensures forall u :: u in old(accounts) ==> u in accounts && accounts[u] == old(accounts[u])
      ensures Outcome(Storage(), status) == Execute(old(Storage()), Instruction.Initialize(url, bump, now))
    {
      if Utf8Length(url) > MAX_SEED_LEN {
        return Failed(MaxSeedLengthExceeded);
      }
      if url in accounts {
        return Failed(AccountAlreadyInUse);
      }
      var account := new VoteAccount.Zeroed();
      accounts := accounts[url := account];
      if url == "" {
        accounts := accounts - {url};
        assert Storage() == old(Storage());
        return Failed(Program(InvalidUrl));
      }
      account.Initialize(bump, now);
      status := Committed;
      assert Storage() == old(Storage())[url := Initial(bump, now)];
    }

    /** The `upvote` instruction. */
    method Upvote(url: Url) returns (status: Status)
      requires Valid()
      modifies accounts.Values
      ensures Valid()
      ensures Outcome(Storage(), status) == Execute(old(Storage()), Vote(url, VoteType.Upvote))
    {
      if url !in accounts {
        return Failed(AccountNotInitialized);
      }
      if url == "" {
        return Failed(Program(InvalidUrl));
      }
      var account := accounts[url];
      var saved := account.Value();
      var r := account.Upvote();
      if r.Err? {
        account.Restore(saved);
        assert Storage() == old(Storage());
        return Failed(Program(r.error));
      }
      status := Committed;
      assert Storage() == old(Storage())[url := account.Value()];
    }

    /** The `downvote` instruction. */
    method Downvote(url: Url) returns (status: Status)
      requires Valid()
      modifies accounts.Values
      ensures Valid()
      ensures Outcome(Storage(), status) == Execute(old(Storage()), Vote(url, VoteType.Downvote))
    {
      if url !in accounts {
        return Failed(AccountNotInitialized);
      }
      if url == "" {
        return Failed(Program(InvalidUrl));
      }
      var account := accounts[url];
      var saved := account.Value();
      var r := account.Downvote();
      if r.Err? {
        account.Restore(saved);
        assert Storage() == old(Storage());
        return Failed(Program(r.error));
      }
      status := Committed;
      assert Storage() == old(Storage())[url := account.Value()];
    }
  }

  /** A client of the handlers: two URLs get separate accounts, a vote on
      one leaves the other alone, and a repeated initialize is refused.
      It shows that the handlers' contracts alone determine these outcomes. */
  method Client(u1: Url, u2: Url, now: I64)
    requires u1 != "" && u2 != "" && u1 != u2
    requires Utf8Length(u1) <= MAX_SEED_LEN && Utf8Length(u2) <= MAX_SEED_LEN
  {
    var ledger := new Ledger();
    assert ledger.Storage() == map[];
    var st := ledger.Initialize(u1, 254, now);
    assert ledger.Storage() == map[u1 := VoteState(0, 254, now, 0)];
    st := ledger.Initialize(u2, 253, now);
    var s2 := map[u1 := VoteState(0, 254, now, 0), u2 := VoteState(0, 253, now, 0)];
    assert ledger.Storage() == s2;
    st := ledger.Upvote(u1);
    VoteOutcome(s2, u1, VoteType.Upvote);
    assert st == Committed;
    var s3 := s2[u1 := VoteState(1, 254, now, 1)];
    assert ledger.Storage() == s3;
    st := ledger.Downvote(u2);
    VoteOutcome(s3, u2, VoteType.Downvote);
    assert ledger.Storage()[u1] == VoteState(1, 254, now, 1);
    assert ledger.Storage()[u2] == VoteState(-1, 253, now, 1);
    st := ledger.Initialize(u1, 254, now);
    assert st == Failed(AccountAlreadyInUse);
  }
}
