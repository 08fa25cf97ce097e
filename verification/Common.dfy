/** What every part of the model shares. */
module Common {
  datatype Option<+T> = None | Some(value: T)

  /** Which statements, sends or calls fail: the k-th one issued. An object that
      carries such a function is fully determined by its inputs. */
  type Faults = nat -> bool

  /** The statements from a up to b were issued and only the last one, if any, failed. */
  ghost predicate StoppedAt(fails: Faults, a: nat, b: nat) {
    a < b && fails(b - 1) && NoneFailed(fails, a, b - 1)
  }

  ghost predicate NoneFailed(fails: Faults, a: nat, b: nat) {
    a <= b && forall k | a <= k < b :: !fails(k)
  }

  lemma NothingIssued(fails: Faults, a: nat)
    ensures NoneFailed(fails, a, a)
  {
  }

  lemma OneIssued(fails: Faults, a: nat)
    ensures if fails(a) then StoppedAt(fails, a, a + 1) else NoneFailed(fails, a, a + 1)
  {
  }

  lemma FailedAfter(fails: Faults, a: nat, b: nat, c: nat)
    requires NoneFailed(fails, a, b)
    ensures NoneFailed(fails, b, c) ==> NoneFailed(fails, a, c)
    ensures StoppedAt(fails, b, c) ==> StoppedAt(fails, a, c)
  {
  }

  const DAY_MS := 86_400_000
}
