/**
Derivation keys for imported artifacts: `_available_derivation_key`
(src/image23mf/bundles.py:1854-1862).
*/
module DerivationKeys {
  type Text = seq<char>

  /** A counter as Python prints it: no sign, no leading zero. */
  function Decimal(n: nat): Text {
    if n < 10 then [Digit(n)] else Decimal(n / 10) + [Digit(n % 10)]
  }

  function Digit(d: nat): char
    requires d < 10
  {
    (d as char) + '0'
  }

  function Value(digits: Text): int {
    if digits == [] then 0
    else 10 * Value(digits[..|digits| - 1]) + (digits[|digits| - 1] as int - '0' as int)
  }

  /** Reading a printed counter gives it back, so different counters print differently. */
  lemma {:induction false} DecimalReadsBack(n: nat)
    ensures Value(Decimal(n)) == n
  {
    if n < 10 {
      assert Decimal(n)[..0] == [];
    } else {
      DecimalReadsBack(n / 10);
      assert Decimal(n)[..|Decimal(n)| - 1] == Decimal(n / 10);
    }
  }

  /** The first characters of a text, all of it when it is shorter. */
  function Head(text: Text, n: nat): Text {
    if |text| <= n then text else text[..n]
  }

  /** The keys tried in turn: the preferred one, then one per counter value. */
  function Candidate(preferred: Text, bundleHash: Text, counter: nat): Text {
    if counter == 0 then preferred
    else preferred + ":import:" + Head(bundleHash, 12) + ":" + Decimal(counter)
  }

  lemma CandidatesDiffer(preferred: Text, bundleHash: Text, m: nat, n: nat)
    requires m != n
    ensures Candidate(preferred, bundleHash, m) != Candidate(preferred, bundleHash, n)
  {
    var stem := preferred + ":import:" + Head(bundleHash, 12) + ":";
    if m != 0 && n != 0 {
      DecimalReadsBack(m);
      DecimalReadsBack(n);
      assert (stem + Decimal(m))[|stem|..] == Decimal(m);
      assert (stem + Decimal(n))[|stem|..] == Decimal(n);
    } else {
      var k := if m == 0 then n else m;
      assert |Candidate(preferred, bundleHash, k)| > |preferred|;
    }
  }

  ghost function Tried(preferred: Text, bundleHash: Text, counter: nat): set<Text> {
    set n: nat | n < counter :: Candidate(preferred, bundleHash, n)
  }

  /** Distinct candidates run out of collisions: after n of them at least n keys are in use. */
  lemma {:induction false} TriedAreMany(preferred: Text, bundleHash: Text, counter: nat)
    ensures |Tried(preferred, bundleHash, counter)| == counter
  {
    if counter > 0 {
      TriedAreMany(preferred, bundleHash, counter - 1);
      forall n: nat | n < counter - 1
        ensures Candidate(preferred, bundleHash, n) != Candidate(preferred, bundleHash, counter - 1)
      {
        CandidatesDiffer(preferred, bundleHash, n, counter - 1);
      }
      assert Tried(preferred, bundleHash, counter)
          == Tried(preferred, bundleHash, counter - 1) + {Candidate(preferred, bundleHash, counter - 1)};
    }
  }

  lemma TriedFitIn(preferred: Text, bundleHash: Text, counter: nat, used: set<Text>)
    requires forall n: nat :: n < counter ==> Candidate(preferred, bundleHash, n) in used
    ensures counter <= |used|
  {
    TriedAreMany(preferred, bundleHash, counter);
    SubsetsAreSmaller(Tried(preferred, bundleHash, counter), used);
  }

  lemma {:induction false} SubsetsAreSmaller(a: set<Text>, b: set<Text>)
    requires a <= b
    ensures |a| <= |b|
  {
    if x :| x in a {
      SubsetsAreSmaller(a - {x}, b - {x});
    }
  }

  predicate IsFirstFree(used: set<Text>, preferred: Text, bundleHash: Text, counter: nat) {
    && Candidate(preferred, bundleHash, counter) !in used
    && forall n: nat :: n < counter ==> Candidate(preferred, bundleHash, n) in used
  }

  lemma {:induction false} FirstFreeExists(used: set<Text>, preferred: Text, bundleHash: Text, tried: nat)
    requires forall n: nat :: n < tried ==> Candidate(preferred, bundleHash, n) in used
    ensures exists counter: nat :: IsFirstFree(used, preferred, bundleHash, counter)
    decreases |used| - tried
  {
    if Candidate(preferred, bundleHash, tried) in used {
      TriedFitIn(preferred, bundleHash, tried + 1, used);
      FirstFreeExists(used, preferred, bundleHash, tried + 1);
    } else {
      assert IsFirstFree(used, preferred, bundleHash, tried);
    }
  }

  /** The key an artifact gets: the first candidate that is not in use. */
  ghost function KeyFor(used: set<Text>, preferred: Text, bundleHash: Text): (key: Text)
    ensures key !in used
    ensures key == preferred <==> preferred !in used
  {
    FirstFreeExists(used, preferred, bundleHash, 0);
    var counter: nat :| IsFirstFree(used, preferred, bundleHash, counter);
    if counter > 0 then CandidatesDiffer(preferred, bundleHash, 0, counter); Candidate(preferred, bundleHash, counter)
    else Candidate(preferred, bundleHash, counter)
  }

  /** The n-th key that is tried beside the preferred one, from 1 on. */
  ghost predicate IsCopy(key: Text, preferred: Text, bundleHash: Text, n: nat) {
    key == preferred + ":import:" + (if |bundleHash| <= 12 then bundleHash else bundleHash[..12]) + ":" + Decimal(n)
  }

  ghost predicate CopyInUse(used: set<Text>, preferred: Text, bundleHash: Text, n: nat) {
    exists key :: key in used && IsCopy(key, preferred, bundleHash, n)
  }

  ghost predicate IsFirstFreeCopy(key: Text, used: set<Text>, preferred: Text, bundleHash: Text, n: nat) {
    && n > 0 && key !in used && IsCopy(key, preferred, bundleHash, n)
    && forall k: nat :: 0 < k < n ==> CopyInUse(used, preferred, bundleHash, k)
  }

  /** A key that is in use is replaced by the first numbered copy that is not. */
  ghost predicate IsChosen(key: Text, used: set<Text>, preferred: Text, bundleHash: Text) {
    if preferred !in used then key == preferred
    else exists n: nat :: IsFirstFreeCopy(key, used, preferred, bundleHash, n)
  }

  lemma KeyForIsChosen(used: set<Text>, preferred: Text, bundleHash: Text)
    ensures IsChosen(KeyFor(used, preferred, bundleHash), used, preferred, bundleHash)
  {
    FirstFreeExists(used, preferred, bundleHash, 0);
    var key := KeyFor(used, preferred, bundleHash);
    var n: nat :| IsFirstFree(used, preferred, bundleHash, n) && key == Candidate(preferred, bundleHash, n);
    forall k: nat | 0 < k < n ensures CopyInUse(used, preferred, bundleHash, k) {
      assert IsCopy(Candidate(preferred, bundleHash, k), preferred, bundleHash, k);
    }
    assert n > 0 ==> IsFirstFreeCopy(key, used, preferred, bundleHash, n);
  }

  lemma FirstFreeIsUnique(used: set<Text>, preferred: Text, bundleHash: Text, m: nat, n: nat)
    requires IsFirstFree(used, preferred, bundleHash, m) && IsFirstFree(used, preferred, bundleHash, n)
    ensures m == n
  {
    assert !(m < n) && !(n < m);
  }

  /** The first candidate that no artifact of the kind uses; `used` are the keys of that kind. */
  method AvailableDerivationKey(used: set<Text>, preferred: Text, bundleHash: Text)
    returns (candidate: Text, counter: nat)
    ensures candidate == Candidate(preferred, bundleHash, counter)
    ensures IsFirstFree(used, preferred, bundleHash, counter) && counter <= |used|
    ensures candidate == KeyFor(used, preferred, bundleHash)
  {
    candidate, counter := preferred, 0;
    while candidate in used
      invariant candidate == Candidate(preferred, bundleHash, counter)
      invariant forall n: nat :: n < counter ==> Candidate(preferred, bundleHash, n) in used
      invariant counter <= |used|
      decreases |used| - counter
    {
      TriedFitIn(preferred, bundleHash, counter + 1, used);
      counter := counter + 1;
      candidate := Candidate(preferred, bundleHash, counter);
    }
    FirstFreeExists(used, preferred, bundleHash, 0);
    forall n: nat | IsFirstFree(used, preferred, bundleHash, n) ensures n == counter {
      FirstFreeIsUnique(used, preferred, bundleHash, n, counter);
    }
  }
}
