/** Serial-number comparison of lifecycle sequence numbers (protocol/motion_sequence.c). */
module MotionSequence {
  import opened Words

  datatype Relation = Same | Newer | Stale

  /** The 16-bit difference decides: 0 same, below 0x8000 newer, the rest stale. */
  function Classify(reference: u16, received: u16): (r: Relation)
  {
    var delta := (received - reference) % TWO16;
    if delta == 0 then Same
    else if delta < 0x8000 then Newer
    else Stale
  }

  /** `s1 < s2` as defined by section 3.2 of RFC 1982 for SERIAL_BITS = 16. */
  predicate SerialLess(s1: u16, s2: u16)
  {
    (s1 < s2 && s2 - s1 < 0x8000) || (s1 > s2 && s1 - s2 > 0x8000)
  }

  /** The code decides exactly the RFC order, and answers Stale where the RFC leaves the order undefined. */
  lemma ClassifyIsSerialOrder(reference: u16, received: u16)
    ensures Classify(reference, received) == Same <==> reference == received
    ensures Classify(reference, received) == Newer <==> SerialLess(reference, received)
    ensures Classify(reference, received) == Stale <==>
            SerialLess(received, reference) || received - reference == 0x8000 || reference - received == 0x8000
  {
    if received >= reference {
      assert (received - reference) % TWO16 == received - reference;
    } else {
      assert (received - reference) % TWO16 == received - reference + TWO16;
    }
  }

  /** Inside the window, comparing wrapped numbers is comparing the true integers. */
  lemma ClassifyTrueNumbers(highest: nat, n: nat)
    requires highest - 0x8000 <= n <= highest + 0x7FFF
    ensures Classify(highest % TWO16, n % TWO16) ==
            if n == highest then Same else if n > highest then Newer else Stale
  {
    assert (n % TWO16 - highest % TWO16) % TWO16 == (n - highest) % TWO16 by {
      var a, b := n / TWO16, highest / TWO16;
      assert n % TWO16 - highest % TWO16 == (n - highest) - (a - b) * TWO16;
      ModShift16(n - highest, a - b);
    }
    if n < highest {
      assert (n - highest) % TWO16 == n - highest + TWO16;
    }
  }

  lemma {:induction false} ModShift16(d: int, k: int)
    ensures (d - k * TWO16) % TWO16 == d % TWO16
    decreases if k < 0 then -k else k
  {
    if k > 0 {
      ModShift16(d - TWO16, k - 1);
    } else if k < 0 {
      ModShift16(d + TWO16, k + 1);
    }
  }
}
