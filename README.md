# Vote program: a Dafny model

This project models the Solana vote program (`programs/vote-program/src/lib.rs`). The program
keeps one `VoteState` account per URL, at an address derived from the URL's bytes. The account
holds `score: i64`, `bump: u8`, `created_at: i64` and `total_votes: u64`. Three instructions act
on it:

- `initialize` creates the account with both counters at zero.
- `upvote` adds one to the score and one to the vote count, both with checked arithmetic.
- `downvote` subtracts one from the score and adds one to the vote count.

The program has two error codes of its own, `InvalidUrl` and `Overflow`. Three more failures
come from the account constraints checked before a handler runs:
- the runtime refuses the URL as a derivation seed longer than 32 bytes;
- `init` finds an account already at the address;
- a vote's account does not exist.

The project has four modules:

- `RustInt` (`rust_int.dfy`) holds the integer widths `I64`, `U64` and `U8`. It also holds
  `checked_add` and `checked_sub`, built as the Rust standard library builds them: a
  two's-complement `overflowing_*` operation, then `None` when the overflow flag is set. Each
  checked operation is proved to return the exact result exactly when that result fits.
- `VoteSpec` (`vote_spec.dfy`) is the pure state machine. A ledger is a map from URL to
  `VoteState`, because distinct URLs derive distinct addresses. The derivation is defined only
  for a URL whose UTF-8 encoding fits the runtime's 32-byte seed limit (`MAX_SEED_LEN`). Beyond
  the limit, `initialize` fails with `MaxSeedLengthExceeded`. `Cast` applies one vote to one
  account. `Execute` runs one instruction and returns the new ledger and either `Committed` or
  `Failed(error)`.
- `VoteHistory` (`vote_history.dfy`) runs sequences of instructions from the empty ledger. It
  proves the accounting invariant: every account's vote count equals its committed upvotes plus
  downvotes, and its score equals upvotes minus downvotes.
- `VoteProgram` (`vote_program.dfy`) is the imperative program. The class `VoteAccount` has the
  four mutable fields, and its methods overwrite them as `Initialize::initialize`,
  `Vote::upvote` and `Vote::downvote` do. The class `Ledger` holds a `map<Url, VoteAccount>`
  and the three instruction handlers. Each handler is proved to have exactly the effect
  `VoteSpec.Execute` gives it.

Failed instructions are rolled back in full by the runtime. The model makes this explicit:

- `Vote::upvote` and `Vote::downvote` write the score before they check the vote count, just as
  the source does. `VoteAccount.Upvote` and `VoteAccount.Downvote` state that partial write.
- The `Ledger` handlers take a snapshot before the call and restore it on error
  (`VoteAccount.Restore` stands for the runtime discarding the writes).
- A rejected `initialize` removes the account it had just created.

The order of checks follows the program's structure. The account constraints are part of
building the instruction's context, so they run before the handler body. The body then checks
the URL, and only then changes state. So `initialize("")` fails with `InvalidUrl` on every ledger
a history can produce. A vote on `""` fails with `AccountNotInitialized` on such a ledger,
because no account for `""` can ever be created (`VoteHistory.StoredUrlsValid`). The program
defines only `InvalidUrl` and `Overflow`. It has no account-mismatch, derivation or separate
underflow error of its own. The seed-length failure comes from the runtime's address search.

Three observations about the source follow from this order:

- The empty-URL checks of the vote handlers (lib.rs:55 and lib.rs:83) can never fire on a ledger
  the program produces (`VoteHistory.EmptyUrlRejected`).
- The test at tests/vote-program.ts:154-165 expects `InvalidUrl`. It passes `testUrl2`'s account
  with an empty URL, so the seeds constraint rejects the call before the handler runs.
- The `beforeEach` at tests/vote-program.ts:77-89 initializes `testUrl2` before every test. From
  the second test on, that account already exists, so `initialize` fails with
  `AccountAlreadyInUse` (`VoteSpec.InitializeOutcome`).

`VoteProgram.Client` has no contract of its own. It runs the scenario of
tests/vote-program.ts:169-217 through the `Ledger` handlers, and shows that their contracts alone
are enough to work out each concrete outcome.

## Model

| member | source | states |
|---|---|---|
| `RustInt.CheckedAddI64` | programs/vote-program/src/lib.rs:160-162 | Built from two's-complement wrap and the sign-overflow test. It returns the exact sum exactly when the sum lies within i64, and None otherwise. |
| `RustInt.CheckedSubI64` | programs/vote-program/src/lib.rs:177-179 | Built the same way. It returns the exact difference exactly when the difference lies within i64, and None otherwise. |
| `RustInt.CheckedAddU64` | programs/vote-program/src/lib.rs:164-166 | Built from wrap-around and the carry test. It returns the exact sum exactly when the sum is at most u64::MAX, and None otherwise. |
| `VoteSpec.Cast` | programs/vote-program/src/lib.rs:158-186 | A vote succeeds exactly when score ± 1 stays within i64 and total_votes is below u64::MAX. It then moves the score by one in the vote's direction, adds one to the count, and leaves bump and created_at alone. Otherwise it fails with Overflow. |
| `VoteSpec.Utf8Length` | programs/vote-program/src/lib.rs:112 | The byte length of the URL's UTF-8 encoding, which is the seed. It lies between the number of characters and four times that number, and it is 0 exactly for the empty URL. |
| `VoteSpec.Execute` | programs/vote-program/src/lib.rs:26-97 | A failed instruction leaves the ledger unchanged. An empty URL never commits, and neither does an `initialize` whose URL is over 32 bytes. Accounts are never removed, and only `initialize` adds one, for its own URL. No other URL's account changes. bump and created_at never change, and total_votes never decreases. |
| `VoteSpec.InitializeOutcome` | programs/vote-program/src/lib.rs:109-137 | `initialize` commits exactly for a new non-empty URL of at most 32 bytes. The new account then holds score 0, count 0, the given bump and the clock time. A longer URL makes it fail with MaxSeedLengthExceeded and changes nothing. An existing account is never overwritten, and when the URL fits it makes `initialize` fail with AccountAlreadyInUse. A new empty URL makes it fail with InvalidUrl, and no account is created. |
| `VoteSpec.LongUrlRefused` | programs/vote-program/src/lib.rs:109-116 | `initialize` with a URL of more than 32 characters fails with MaxSeedLengthExceeded and leaves the ledger unchanged. |
| `VoteSpec.VoteOutcome` | programs/vote-program/src/lib.rs:143-186 | A vote on a URL with no account fails with AccountNotInitialized. A vote on an empty URL that has an account fails with InvalidUrl. Otherwise the vote commits exactly when neither counter overflows, giving score ± 1 and count + 1 with nothing else changed. When a counter would overflow, it fails with Overflow and leaves the ledger unchanged. |
| `VoteSpec.OverflowRejected` | programs/vote-program/src/lib.rs:158-186 | These fail with Overflow and leave the ledger unchanged: an upvote at i64::MAX, a downvote at i64::MIN, and any vote at a count of u64::MAX. |
| `VoteHistory.Tally` | programs/vote-program/src/lib.rs:192-201 | After any instruction sequence from the empty ledger, a URL has an account exactly when exactly one of its initializes committed. total_votes is the number of committed upvotes plus downvotes on the URL, and score is upvotes minus downvotes. A URL without an account has no committed votes. |
| `VoteHistory.ScoreWithinTotal` | programs/vote-program/src/lib.rs:193-200 | After any history, every account satisfies -total_votes ≤ score ≤ total_votes. |
| `VoteHistory.StoredUrlsValid` | programs/vote-program/src/lib.rs:26-28 | No history ever creates an account for the empty URL, or for a URL over 32 bytes. |
| `VoteHistory.EmptyUrlRejected` | tests/vote-program.ts:54-71 | On any ledger a history produces, an instruction with an empty URL fails and changes nothing. An `initialize` fails with InvalidUrl and a vote with AccountNotInitialized. |
| `VoteHistory.OtherUrlsIndependent` | programs/vote-program/src/lib.rs:145-150 | Any run of instructions on other URLs leaves an existing account exactly as it was. |
| `VoteHistory.UpUpDown` | tests/vote-program.ts:129-152 | On a fresh account, upvote, upvote, downvote leaves score 1 and count 3. bump and created_at keep their initial values. |
| `VoteHistory.TwoUrls` | tests/vote-program.ts:169-217 | Two URLs get separate accounts. An upvote on one and a downvote on the other give scores 1 and -1. |
| `VoteProgram.VoteAccount.Zeroed` | programs/vote-program/src/lib.rs:109-116 | The account that the `init` constraint creates holds zeroed data. |
| `VoteProgram.VoteAccount.Initialize` | programs/vote-program/src/lib.rs:130-137 | After the call the account holds score 0, count 0, the given bump and the clock time. |
| `VoteProgram.VoteAccount.Upvote` | programs/vote-program/src/lib.rs:158-169 | It succeeds exactly when `Cast` with an upvote does, and then the account holds `Cast`'s result. On Overflow the count, bump and created_at are unchanged, and the score is already incremented unless it was i64::MAX. |
| `VoteProgram.VoteAccount.Downvote` | programs/vote-program/src/lib.rs:175-186 | The same as `Upvote` for a downvote. On Overflow the score is already decremented unless it was i64::MIN. |
| `VoteProgram.Ledger.Initialize` | programs/vote-program/src/lib.rs:26-41 | The new ledger contents and the status are exactly `Execute`'s for `initialize`, including the seed-length failure. Distinct URLs keep distinct account objects. Every URL already in the ledger keeps its account object, and any new account object is fresh. |
| `VoteProgram.Ledger.Upvote` | programs/vote-program/src/lib.rs:53-69 | The new ledger contents and the status are exactly `Execute`'s for an upvote. This includes the rollback of the partial write on Overflow. |
| `VoteProgram.Ledger.Downvote` | programs/vote-program/src/lib.rs:81-97 | The new ledger contents and the status are exactly `Execute`'s for a downvote. This includes the rollback of the partial write on Overflow. |

## Left out

- Address derivation is not modelled: `findProgramAddressSync`, the seeds and bump check, SHA-256 and the off-curve test. The URL itself is the account's key. The bump is an opaque `u8` input to `initialize`.
- Re-checking on each vote that the account's stored bump re-derives its address (lib.rs:148) is not modelled, because the URL is the key. This includes the seed-length failure of that re-derivation. It matters only on a ledger holding an account for a URL over 32 bytes, and no history produces one (`VoteHistory.StoredUrlsValid`).
- Only the seed-length failure of `init`'s address search is modelled. The search exhausting every bump is left out, because it rests on hashing in the runtime.
- The test that votes with an empty URL while passing another URL's account (tests/vote-program.ts:154-165) cannot be expressed, because in this model the URL is the account. The seeds constraint would reject that call before the handler ran anyway.
- `Clock::get()` is a parameter `now`. A failing clock read is not modelled. That created_at is positive is a property of the clock, not of the program.
- Rent, the payer, the system program, the account size, Anchor serialization and account discriminators are left out. These are concerns of the runtime.
- The `emit!` events (`VoteAccountCreated`, `VoteCast`) are logging only.
- Concurrency is left out. The runtime serializes instructions that touch one account, so each instruction is modelled as one atomic step.
