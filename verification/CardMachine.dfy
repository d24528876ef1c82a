/**
 The simulated card behind a session (SimulatorSession.java). A card operation is not atomic:
 the simulator works through an unknown number of internal steps on the card's state, so two
 operations that overlapped would see each other's half-finished work.
 */
module CardMachine {
  import opened Wrappers

  /** The three calls a session forwards to its simulator. */
  datatype Op = Transmit(capdu: Bytes) | Reset | GetAtr

  /** `Threw` is a Java Exception with its message; `Died` a Throwable no handler catches. */
  datatype Outcome = Returned(bytes: Bytes) | Threw(message: Option<Bytes>) | Died

  datatype Progress<+S, +K> = More(state: S, local: K) | Done(state: S, outcome: Outcome)

  /** `begin` gives a call's local state, `step` is one internal step of the simulator. */
  datatype Card<!S, !K> = Card(begin: Op -> K, step: (S, K) -> Progress<S, K>)

  function Micro<S, K>(card: Card<S, K>, s: S, k: K, n: nat): Progress<S, K> {
    if n == 0 then More(s, k)
    else
      match card.step(s, k)
      case Done(s', outcome) => Done(s', outcome)
      case More(s', k') => Micro(card, s', k', n - 1)
  }

  /** Where a call leads when nothing else touches the card; None if it never returns. */
  ghost function Finish<S, K>(card: Card<S, K>, s: S, k: K): Option<(S, Outcome)> {
    if n: nat :| Micro(card, s, k, n).Done? then
      Some((Micro(card, s, k, n).state, Micro(card, s, k, n).outcome))
    else None
  }

  /** A whole operation, run without interruption from the card state `s`. */
  ghost function Whole<S, K>(card: Card<S, K>, s: S, op: Op): Option<(S, Outcome)> {
    Finish(card, s, card.begin(op))
  }

  lemma {:induction false} DoneStays<S, K>(card: Card<S, K>, s: S, k: K, n: nat, m: nat)
    requires n <= m && Micro(card, s, k, n).Done?
    ensures Micro(card, s, k, m) == Micro(card, s, k, n)
    decreases n
  {
    if card.step(s, k).More? {
      var next := card.step(s, k);
      DoneStays(card, next.state, next.local, n - 1, m - 1);
    }
  }

  // The result does not depend on how many steps one waits.
  lemma FinishIs<S, K>(card: Card<S, K>, s: S, k: K, n: nat)
    requires Micro(card, s, k, n).Done?
    ensures Finish(card, s, k) == Some((Micro(card, s, k, n).state, Micro(card, s, k, n).outcome))
  {
    forall m: nat | Micro(card, s, k, m).Done? ensures Micro(card, s, k, m) == Micro(card, s, k, n) {
      DoneStays(card, s, k, if m < n then m else n, if m < n then n else m);
    }
  }

  // One step of an operation in progress leaves its result as it was going to be.
  lemma FinishStep<S, K>(card: Card<S, K>, s: S, k: K)
    ensures match card.step(s, k)
            case Done(s', outcome) => Finish(card, s, k) == Some((s', outcome))
            case More(s', k') => Finish(card, s, k) == Finish(card, s', k')
  {
    match card.step(s, k)
    case Done(s', outcome) =>
      assert Micro(card, s, k, 1).Done?;
      FinishIs(card, s, k, 1);
    case More(s', k') =>
      if n: nat :| Micro(card, s', k', n).Done? {
        FinishIs(card, s', k', n);
        FinishIs(card, s, k, n + 1);
      } else {
        forall n: nat ensures !Micro(card, s, k, n).Done? {
          if n > 0 {
            assert !Micro(card, s', k', n - 1).Done?;
          }
        }
      }
  }
}
