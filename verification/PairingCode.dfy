/** `generate_code` of src/security/pairing.rs: six digits by rejection sampling of 32-bit draws. */
module PairingCode {
  import opened Strings

  const U32_MAX := 0xFFFF_FFFF
  const UPPER_BOUND := 1_000_000
  const REJECT_THRESHOLD := (U32_MAX / UPPER_BOUND) * UPPER_BOUND

  function Digit(n: nat): char
    requires n < 10
  {
    '0' + n as char
  }

  function Pow10(k: nat): nat {
    if k == 0 then 1 else 10 * Pow10(k - 1)
  }

  /** The last `k` decimal digits, with leading zeros. */
  function Digits(n: nat, k: nat): (s: string)
    ensures |s| == k && AllDigits(s)
  {
    if k == 0 then "" else Digits(n / 10, k - 1) + [Digit(n % 10)]
  }

  /** `format!("{:06}", n)`. */
  function SixDigits(n: nat): (s: string)
    requires n < UPPER_BOUND
    ensures |s| == 6 && AllDigits(s)
  {
    Digits(n, 6)
  }

  /** The first draw below the threshold decides; with none left the loop would draw on. */
  method GenerateCode(draws: seq<nat>) returns (code: Option<string>)
    requires forall i :: 0 <= i < |draws| ==> draws[i] <= U32_MAX
    ensures code.None? ==> forall i :: 0 <= i < |draws| ==> draws[i] >= REJECT_THRESHOLD
    ensures code.Some? ==> exists i :: 0 <= i < |draws| && draws[i] < REJECT_THRESHOLD
                                       && (forall j :: 0 <= j < i ==> draws[j] >= REJECT_THRESHOLD)
                                       && code.value == SixDigits(draws[i] % UPPER_BOUND)
  {
    for i := 0 to |draws|
      invariant forall j :: 0 <= j < i ==> draws[j] >= REJECT_THRESHOLD
    {
      if draws[i] < REJECT_THRESHOLD {
        return Some(SixDigits(draws[i] % UPPER_BOUND));
      }
    }
    return None;
  }

  lemma {:induction false} DigitsRead(n: nat, k: nat)
    requires n < Pow10(k)
    ensures ReadDecimal(Digits(n, k)) == n
  {
    if k > 0 {
      DigitsRead(n / 10, k - 1);
      ReadOneMore(Digits(n / 10, k - 1), Digit(n % 10));
    }
  }

  /** A code is its number in six decimal digits. */
  lemma SixDigitsRead(n: nat)
    requires n < 1_000_000
    ensures |SixDigits(n)| == 6 && ReadDecimal(SixDigits(n)) == n
  {
    assert Pow10(6) == UPPER_BOUND;
    DigitsRead(n, 6);
  }

  /** Different numbers give different codes. */
  lemma SixDigitsInjective(m: nat, n: nat)
    requires m < UPPER_BOUND && n < UPPER_BOUND && SixDigits(m) == SixDigits(n)
    ensures m == n
  {
    SixDigitsRead(m);
    SixDigitsRead(n);
  }

  /** The draws below `blocks` times the bound that give the code `n`. */
  function DrawsFor(n: nat, blocks: nat): set<nat> {
    set r: nat | r < blocks * UPPER_BOUND && r % UPPER_BOUND == n
  }

  lemma {:induction false} OneDrawPerBlock(n: nat, blocks: nat)
    requires n < UPPER_BOUND
    ensures |DrawsFor(n, blocks)| == blocks
  {
    if blocks == 0 {
      assert DrawsFor(n, 0) == {};
    } else {
      var last := (blocks - 1) * UPPER_BOUND + n;
      OneDrawPerBlock(n, blocks - 1);
      assert DrawsFor(n, blocks) == DrawsFor(n, blocks - 1) + {last};
    }
  }

  /** No bias: every code comes from the same number of accepted draws. */
  lemma CodesAreUniform(n: nat)
    requires n < UPPER_BOUND
    ensures |set r: nat | r < REJECT_THRESHOLD && r % UPPER_BOUND == n| == 4294
  {
    OneDrawPerBlock(n, 4294);
    assert DrawsFor(n, 4294) == set r: nat | r < REJECT_THRESHOLD && r % UPPER_BOUND == n;
  }
}
