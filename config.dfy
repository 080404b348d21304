/** The fixed configuration of the `calculate` command: crimes, their aliases and payments (main.py:24-37). */
module Config {

  /** One entry of `CRIME_ALIASES`: a canonical crime name and the aliases that select it. */
  datatype CrimeDef = CrimeDef(canonical: string, aliases: seq<string>)

  /** `CRIME_ALIASES`, in declaration order (the order Python's dict iterates in). */
  const CrimeAliases: seq<CrimeDef> := [
    CrimeDef("コンビニ強盗", ["コンビニ"]),
    CrimeDef("フリーカ強盗", ["フリーカ"]),
    CrimeDef("モーテル強盗", ["モーテル"])
  ]

  /** `CRIME_PAYMENT`: the payment per participant for a clean win. */
  const CrimePayment: map<string, int> := map[
    "コンビニ強盗" := 200000,
    "フリーカ強盗" := 200000,
    "モーテル強盗" := 500000
  ]

  /** `FAIL_PAYMENT`: the payment per participant for every other outcome. */
  const FailPayment: int := 100000

  /** The fallback of `CRIME_PAYMENT.get(crime, 500000)`. */
  const DefaultPayment: int := 500000

  /** The largest payment any single message can bring a participant. */
  const MaxPayment: int := 500000

  predicate IsCanonical(c: string) {
    exists k :: 0 <= k < |CrimeAliases| && CrimeAliases[k].canonical == c
  }

  /** `CRIME_PAYMENT.get(crime, 500000)`. */
  function PaymentFor(crime: string): (p: int)
    ensures FailPayment <= p <= MaxPayment
    ensures IsCanonical(crime) ==> p == CrimePayment[crime]
  {
    CanonicalHavePayments();
    if crime in CrimePayment then CrimePayment[crime] else DefaultPayment
  }

  /** Every canonical name is a key of `CRIME_PAYMENT`, so the fallback is never used for one. */
  lemma CanonicalHavePayments()
    ensures forall c :: IsCanonical(c) ==> c in CrimePayment
  {
    forall c | IsCanonical(c) ensures c in CrimePayment {
      var k :| 0 <= k < |CrimeAliases| && CrimeAliases[k].canonical == c;
      assert k == 0 || k == 1 || k == 2;
    }
  }

  /** The canonical names are pairwise distinct (they are the keys of a dict). */
  lemma CanonicalDistinct()
    ensures forall k, l :: 0 <= k < l < |CrimeAliases| ==> CrimeAliases[k].canonical != CrimeAliases[l].canonical
  {
  }

  /** Every crime has an alias, and every alias is a non-empty string. */
  lemma AliasesNonEmpty()
    ensures forall k :: 0 <= k < |CrimeAliases| ==> |CrimeAliases[k].aliases| > 0
    ensures forall k, a :: 0 <= k < |CrimeAliases| && a in CrimeAliases[k].aliases ==> |a| > 0
  {
  }
}
