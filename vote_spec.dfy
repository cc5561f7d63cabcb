/** The vote program as a deterministic state machine over the ledger's
    vote accounts. Every vote account sits at an address derived from its
    URL alone, so the ledger is a map from URL to the account's VoteState.
    An instruction either commits or fails, and the runtime discards
    every write of a failed instruction. */
module VoteSpec {
  import opened RustInt

  type Url = string

  /** The data of one vote account (lib.rs `VoteState`). */
  datatype VoteState = VoteState(score: I64, bump: U8, createdAt: I64, totalVotes: U64)

  /** The program's own error codes (lib.rs `VoteError`). */
  datatype VoteError = InvalidUrl | Overflow

  /** Why an instruction fails: a program error, or one of the failures of
      the account constraints the framework checks before the handler
      body runs. */
  datatype Error =
    | Program(code: VoteError)
      // `init` searches for the derived address, and the runtime refuses a
      // seed longer than MAX_SEED_LEN bytes, which aborts the instruction
    | MaxSeedLengthExceeded
      // `init`: the derived address already holds an account
    | AccountAlreadyInUse
      // `Account<VoteState>`: no vote account at the derived address
    | AccountNotInitialized

  /** The two kinds of vote (lib.rs `VoteType`). */
  datatype VoteType = Upvote | Downvote

  datatype Instruction =
    | Initialize(url: Url, bump: U8, now: I64)
    | Vote(url: Url, kind: VoteType)

  type Storage = map<Url, VoteState>

  /** The runtime's limit on the length of one address-derivation seed. */
  const MAX_SEED_LEN: nat := 32

  /** The number of bytes UTF-8 uses for one character. */
  function Utf8Width(c: char): nat
  {
    if c as int < 0x80 then 1
    else if c as int < 0x800 then 2
    else if c as int < 0x1_0000 then 3
    else 4
  }

  /** `url.as_bytes().len()`: the length of the URL's UTF-8 encoding, the
      seed the account address is derived from. */
  function Utf8Length(s: string): (n: nat)
    ensures |s| <= n <= 4 * |s|
    ensures n == 0 <==> s == ""
  {
    if s == "" then 0 else Utf8Width(s[0]) + Utf8Length(s[1..])
  }

  datatype Status = Committed | Failed(error: Error)

  datatype Outcome = Outcome(storage: Storage, status: Status)

  datatype Result<T> = Ok(value: T) | Err(error: VoteError)

  /** The change a vote makes to the score. */
  function Delta(kind: VoteType): int
  {
    match kind
    case Upvote => 1
    case Downvote => -1
  }

  /** The state a freshly initialized account holds. */
  function Initial(bump: U8, now: I64): VoteState
  {
    VoteState(0, bump, now, 0)
  }

  /** A vote applied to one account's data, as `Vote::upvote` and
      `Vote::downvote` do it: checked update of the score, then checked
      increment of the vote count, Overflow if either does not fit. */
  function Cast(v: VoteState, kind: VoteType): (r: Result<VoteState>)
    ensures r.Ok? <==>
      I64_MIN <= v.score + Delta(kind) <= I64_MAX && v.totalVotes < U64_MAX
    ensures r.Ok? ==>
      r.value == v.(score := v.score + Delta(kind), totalVotes := v.totalVotes + 1)
    ensures r.Err? ==> r.error == Overflow
  {
    var score := match kind
      case Upvote => CheckedAddI64(v.score, 1)
      case Downvote => CheckedSubI64(v.score, 1);
    if score.None? then Err(Overflow)
    else
      var total := CheckedAddU64(v.totalVotes, 1);
      if total.None? then Err(Overflow)
      else Ok(v.(score := score.value, totalVotes := total.value))
  }

  /** One instruction against the ledger. The account constraints are
      checked first (they are part of building the instruction's context):
      for Initialize the derivation of the address from the URL, then that
      no account is there yet; for a vote, that the account exists. Then
      the handler body runs: the URL check, then the state change. */
  function Execute(s: Storage, ix: Instruction): (r: Outcome)
    // a failed instruction leaves the ledger exactly as it was
    ensures r.status.Failed? ==> r.storage == s
    // an empty URL, or one too long to serve as a seed, never commits
    ensures ix.url == "" ==> r.status.Failed?
    ensures ix.Initialize? && Utf8Length(ix.url) > MAX_SEED_LEN ==> r.status.Failed?
    // accounts are never deleted; only Initialize adds one, for its own URL
    ensures s.Keys <= r.storage.Keys
    ensures r.storage.Keys <= s.Keys + {ix.url}
    ensures ix.Vote? ==> r.storage.Keys == s.Keys
    // no other URL's account is touched
    ensures forall u :: u in s && u != ix.url ==> r.storage[u] == s[u]
    // bump and creation time never change once set; the count never drops
    ensures forall u :: u in s ==>
      && r.storage[u].bump == s[u].bump
      && r.storage[u].createdAt == s[u].createdAt
      && r.storage[u].totalVotes >= s[u].totalVotes
  {
    match ix
    case Initialize(url, bump, now) =>
      if Utf8Length(url) > MAX_SEED_LEN then Outcome(s, Failed(MaxSeedLengthExceeded))
      else if url in s then Outcome(s, Failed(AccountAlreadyInUse))
      else if url == "" then Outcome(s, Failed(Program(InvalidUrl)))
      else Outcome(s[url := Initial(bump, now)], Committed)
    case Vote(url, kind) =>
      if url !in s then Outcome(s, Failed(AccountNotInitialized))
      else if url == "" then Outcome(s, Failed(Program(InvalidUrl)))
      else match Cast(s[url], kind)
        case Ok(v) => Outcome(s[url := v], Committed)
        case Err(e) => Outcome(s, Failed(Program(e)))
  }

  /** Initialize commits exactly for a new, non-empty URL of at most
      MAX_SEED_LEN bytes, and then holds a zeroed account with the given
      bump and clock time; a longer URL cannot be derived from, and an
      existing account is never overwritten. */
  lemma InitializeOutcome(s: Storage, url: Url, bump: U8, now: I64)
    ensures var r := Execute(s, Initialize(url, bump, now));
      && (r.status.Committed? <==> url != "" && Utf8Length(url) <= MAX_SEED_LEN && url !in s)
      && (r.status.Committed? ==> r.storage == s[url := VoteState(0, bump, now, 0)])
      && (Utf8Length(url) > MAX_SEED_LEN ==> r == Outcome(s, Failed(MaxSeedLengthExceeded)))
      && (url in s ==> r.status.Failed? && r.storage[url] == s[url])
      && (url in s && Utf8Length(url) <= MAX_SEED_LEN ==> r.status == Failed(AccountAlreadyInUse))
      && (url !in s && url == "" ==> r.status == Failed(Program(InvalidUrl)) && url !in r.storage)
  {
  }

  /** Initialize with a URL of more than MAX_SEED_LEN characters (so more
      than MAX_SEED_LEN bytes) fails, leaving the ledger unchanged. */
  lemma LongUrlRefused(s: Storage, url: Url, bump: U8, now: I64)
    requires |url| > MAX_SEED_LEN
    ensures Execute(s, Initialize(url, bump, now)) == Outcome(s, Failed(MaxSeedLengthExceeded))
  {
  }

  /** A vote fails on a URL with no account, fails with InvalidUrl on an
      empty URL, and otherwise moves the score by one in its direction and
      counts one more vote, or fails with Overflow and changes nothing. */
  lemma VoteOutcome(s: Storage, url: Url, kind: VoteType)
    ensures var r := Execute(s, Vote(url, kind));
      && (url !in s ==> r == Outcome(s, Failed(AccountNotInitialized)))
      && (url in s && url == "" ==> r == Outcome(s, Failed(Program(InvalidUrl))))
      && (url in s && url != "" ==>
            var v := s[url];
            && (r.status.Committed? <==>
                  (if kind == Upvote then v.score < I64_MAX else v.score > I64_MIN)
                  && v.totalVotes < U64_MAX)
            && (r.status.Committed? ==>
                  r.storage == s[url := VoteState(v.score + Delta(kind), v.bump, v.createdAt, v.totalVotes + 1)])
            && (r.status.Failed? ==> r == Outcome(s, Failed(Program(Overflow)))))
  {
  }

  /** The overflow cases: an upvote at i64::MAX, a downvote at i64::MIN, or
      any vote at u64::MAX total fails with Overflow and changes nothing. */
  lemma OverflowRejected(s: Storage, url: Url, kind: VoteType)
    requires url in s && url != ""
    requires || (kind == Upvote && s[url].score == I64_MAX)
             || (kind == Downvote && s[url].score == I64_MIN)
             || s[url].totalVotes == U64_MAX
    ensures Execute(s, Vote(url, kind)) == Outcome(s, Failed(Program(Overflow)))
  {
  }
}
