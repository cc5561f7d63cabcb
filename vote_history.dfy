/** Sequences of instructions run against the ledger from its empty state,
    and the invariants that hold after any of them: each URL's account
    counts exactly the votes that committed on it, with the score the
    upvotes less the downvotes. */
module VoteHistory {
  import opened RustInt
  import opened VoteSpec

  /** The ledger after running ixs in order from s; failed instructions
      are rolled back and leave no trace. */
  function Run(s: Storage, ixs: seq<Instruction>): Storage
    decreases |ixs|
  {
    if ixs == [] then s
    else Execute(Run(s, ixs[..|ixs| - 1]), ixs[|ixs| - 1]).storage
  }

  /** The instructions of ixs that committed when run from s, in order. */
  function Applied(s: Storage, ixs: seq<Instruction>): seq<Instruction>
    decreases |ixs|
  {
    if ixs == [] then []
    else
      var last := ixs[|ixs| - 1];
      var earlier := ixs[..|ixs| - 1];
      Applied(s, earlier) + if Execute(Run(s, earlier), last).status.Committed? then [last] else []
  }

  /** How many votes of the given kind on url the sequence holds. */
  function Votes(ixs: seq<Instruction>, url: Url, kind: VoteType): nat
    decreases |ixs|
  {
    if ixs == [] then 0
    else Votes(ixs[..|ixs| - 1], url, kind) + if ixs[|ixs| - 1] == Vote(url, kind) then 1 else 0
  }

  /** How many Initialize instructions for url the sequence holds. */
  function Inits(ixs: seq<Instruction>, url: Url): nat
    decreases |ixs|
  {
    if ixs == [] then 0
    else Inits(ixs[..|ixs| - 1], url) + if ixs[|ixs| - 1].Initialize? && ixs[|ixs| - 1].url == url then 1 else 0
  }

  lemma RunSnoc(s: Storage, ixs: seq<Instruction>, ix: Instruction)
    ensures Run(s, ixs + [ix]) == Execute(Run(s, ixs), ix).storage
  {
    assert (ixs + [ix])[..|ixs|] == ixs;
  }

  lemma CountsAppend(h: seq<Instruction>, x: Instruction, url: Url)
    ensures Votes(h + [x], url, Upvote) == Votes(h, url, Upvote) + if x == Vote(url, Upvote) then 1 else 0
    ensures Votes(h + [x], url, Downvote) == Votes(h, url, Downvote) + if x == Vote(url, Downvote) then 1 else 0
    ensures Inits(h + [x], url) == Inits(h, url) + if x.Initialize? && x.url == url then 1 else 0
  {
    assert (h + [x])[..|h|] == h;
  }

  /** The accounting invariant for one URL, given the ledger s and the
      committed instructions h that produced it. */
  ghost predicate TallyHolds(s: Storage, h: seq<Instruction>, u: Url)
  {
    && Inits(h, u) == (if u in s then 1 else 0)
    && (u in s ==>
          && s[u].totalVotes == Votes(h, u, Upvote) + Votes(h, u, Downvote)
          && s[u].score == Votes(h, u, Upvote) - Votes(h, u, Downvote))
    && (u !in s ==> Votes(h, u, Upvote) == 0 && Votes(h, u, Downvote) == 0)
  }

  /** The accounting invariant. From the empty ledger, after any sequence
      of instructions: a URL has an account exactly when one Initialize
      for it committed (never two); its vote count is the number of
      committed upvotes and downvotes on it, and its score the upvotes
      less the downvotes. A URL without an account has no committed votes. */
  lemma {:induction false} Tally(ixs: seq<Instruction>)
    ensures forall u :: TallyHolds(Run(map[], ixs), Applied(map[], ixs), u)
    decreases |ixs|
  {
    if ixs != [] {
      var earlier := ixs[..|ixs| - 1];
      var last := ixs[|ixs| - 1];
      Tally(earlier);
      var s0 := Run(map[], earlier);
      var h0 := Applied(map[], earlier);
      var r := Execute(s0, last);
      if r.status.Committed? {
        assert Applied(map[], ixs) == h0 + [last];
        if last.Vote? {
          VoteOutcome(s0, last.url, last.kind);
        }
        forall u | true
          ensures TallyHolds(r.storage, h0 + [last], u)
        {
          CountsAppend(h0, last, u);
          assert TallyHolds(s0, h0, u);
        }
      } else {
        assert Applied(map[], ixs) == h0 + [];
        assert h0 + [] == h0;
      }
    }
  }

  /** After any history, every account's score lies within plus or minus
      its vote count. */
  lemma ScoreWithinTotal(ixs: seq<Instruction>)
    ensures var s := Run(map[], ixs);
      forall u :: u in s ==> -(s[u].totalVotes as int) <= s[u].score <= s[u].totalVotes
  {
    Tally(ixs);
    var s := Run(map[], ixs);
    forall u | u in s
      ensures -(s[u].totalVotes as int) <= s[u].score <= s[u].totalVotes
    {
      assert TallyHolds(s, Applied(map[], ixs), u);
    }
  }

  /** No history ever creates an account for the empty URL, nor for a URL
      whose UTF-8 encoding is longer than a derivation seed may be. */
  lemma {:induction false} StoredUrlsValid(ixs: seq<Instruction>)
    ensures forall u :: u in Run(map[], ixs) ==> u != "" && Utf8Length(u) <= MAX_SEED_LEN
    decreases |ixs|
  {
    if ixs != [] {
      StoredUrlsValid(ixs[..|ixs| - 1]);
    }
  }

  /** On any ledger a history produces, an instruction with the empty URL
      fails and changes nothing: Initialize with InvalidUrl, a vote with
      AccountNotInitialized (its account constraint is checked before the
      URL is looked at, and no account for "" can exist). */
  lemma EmptyUrlRejected(ixs: seq<Instruction>, ix: Instruction)
    requires ix.url == ""
    ensures var s := Run(map[], ixs);
      Execute(s, ix) == Outcome(s, Failed(
        if ix.Initialize? then Program(InvalidUrl) else AccountNotInitialized))
  {
    StoredUrlsValid(ixs);
  }

  /** Instructions on other URLs never change a URL's account. */
  lemma {:induction false} OtherUrlsIndependent(s: Storage, ixs: seq<Instruction>, u: Url)
    requires u in s
    requires forall i :: 0 <= i < |ixs| ==> ixs[i].url != u
    ensures u in Run(s, ixs) && Run(s, ixs)[u] == s[u]
    decreases |ixs|
  {
    if ixs != [] {
      OtherUrlsIndependent(s, ixs[..|ixs| - 1], u);
    }
  }

  /** Upvote, upvote, downvote on a fresh account leaves score 1 after 3
      votes, with bump and creation time as initialized. */
  lemma UpUpDown(url: Url, bump: U8, now: I64)
    requires url != "" && Utf8Length(url) <= MAX_SEED_LEN
    ensures var s := Run(map[], [Initialize(url, bump, now), Vote(url, Upvote), Vote(url, Upvote), Vote(url, Downvote)]);
      url in s && s[url] == VoteState(1, bump, now, 3)
  {
    var a, b, c, d := Initialize(url, bump, now), Vote(url, Upvote), Vote(url, Upvote), Vote(url, Downvote);
    var s1 := map[url := VoteState(0, bump, now, 0)];
    var s2 := map[url := VoteState(1, bump, now, 1)];
    var s3 := map[url := VoteState(2, bump, now, 2)];
    var s4 := map[url := VoteState(1, bump, now, 3)];
    assert Execute(map[], a).storage == s1;
    assert Execute(s1, b).storage == s2 by { VoteOutcome(s1, url, Upvote); }
    assert Execute(s2, c).storage == s3 by { VoteOutcome(s2, url, Upvote); }
    assert Execute(s3, d).storage == s4 by { VoteOutcome(s3, url, Downvote); }
    RunSnoc(map[], [], a);
    assert [] + [a] == [a];
    RunSnoc(map[], [a], b);
    assert [a] + [b] == [a, b];
    RunSnoc(map[], [a, b], c);
    assert [a, b] + [c] == [a, b, c];
    RunSnoc(map[], [a, b, c], d);
    assert [a, b, c] + [d] == [a, b, c, d];
  }

  /** Two URLs initialized side by side, one upvoted and the other
      downvoted, end at scores 1 and -1. */
  lemma TwoUrls(u1: Url, u2: Url, now: I64)
    requires u1 != "" && u2 != "" && u1 != u2
    requires Utf8Length(u1) <= MAX_SEED_LEN && Utf8Length(u2) <= MAX_SEED_LEN
    ensures var s := Run(map[], [Initialize(u1, 255, now), Initialize(u2, 255, now), Vote(u1, Upvote), Vote(u2, Downvote)]);
      u1 in s && u2 in s && s[u1].score == 1 && s[u2].score == -1
  {
    var a, b, c, d := Initialize(u1, 255, now), Initialize(u2, 255, now), Vote(u1, Upvote), Vote(u2, Downvote);
    var s1 := map[u1 := VoteState(0, 255, now, 0)];
    var s2 := s1[u2 := VoteState(0, 255, now, 0)];
    var s3 := s2[u1 := VoteState(1, 255, now, 1)];
    var s4 := s3[u2 := VoteState(-1, 255, now, 1)];
    assert Execute(map[], a).storage == s1;
    assert Execute(s1, b).storage == s2;
    assert Execute(s2, c).storage == s3 by { VoteOutcome(s2, u1, Upvote); }
    assert Execute(s3, d).storage == s4 by { VoteOutcome(s3, u2, Downvote); }
    RunSnoc(map[], [], a);
    assert [] + [a] == [a];
    RunSnoc(map[], [a], b);
    assert [a] + [b] == [a, b];
    RunSnoc(map[], [a, b], c);
    assert [a, b] + [c] == [a, b, c];
    RunSnoc(map[], [a, b, c], d);
    assert [a, b, c] + [d] == [a, b, c, d];
  }
}
