/** What the header of a wake-up page tells. */
module WakeupLaws {
  import opened Items
  import opened Text
  import opened Wakeup
  import Time

  /** `s` writes `n`: its digits count to it, and none of them is a leading zero. */
  predicate IsNumeral(s: string, n: nat) {
    s != "" && AllDigits(s) && Time.Value(s) == n && (|s| > 1 ==> s[0] != '0')
  }

  lemma {:induction false} DecimalMeaning(n: nat)
    ensures IsNumeral(Decimal(n), n)
    ensures n > 0 ==> Decimal(n)[0] != '0'
  {
    if n < 10 {
      assert Decimal(n)[..0] == "";
    } else {
      DecimalMeaning(n / 10);
      assert Decimal(n)[..|Decimal(n)| - 1] == Decimal(n / 10);
    }
  }

  /**
   A page begins with the scopes' names, the number of items that match, and the number of blocks that
   follow, whatever was dropped for the budget; no block follows without the adapter's text.
   */
  lemma {:induction false} PageTellsCounts(w: Wakeup, adapter: Adapter, i: nat) returns (total: string, shown: string)
    requires i <= |w.blocks|
    ensures IsNumeral(total, w.total) && IsNumeral(shown, |w.blocks[i..]|)
    ensures Page(w, adapter, i)
         == "# Singularmem wake-up \U{2014} " + Join(w.scopes, ", ") + " \U{2014} " + total + " items, showing last "
            + shown + "\n" + (if w.blocks[i..] == [] then "" else adapter(w.blocks[i..]))
  {
    total, shown := Decimal(w.total), Decimal(|w.blocks| - i);
    DecimalMeaning(w.total);
    DecimalMeaning(|w.blocks| - i);
  }
}
