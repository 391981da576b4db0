/** The text of a barrier message: what `pacon_barrier` writes and what `commit_to_fs` reads out of it. */
module BarrierText {
  import opened Digits

  const BAR: Byte := 124

  /** "k|id". */
  function Written(k: nat, id: nat): (t: Text)
    ensures |t| >= 3
  {
    Decimal(k) + [BAR] + Decimal(id)
  }

  /** The text in plain terms: two decimal numbers without leading zeros and a bar between them. */
  lemma {:induction false} WrittenIs(k: nat, id: nat) returns (count: Text, number: Text)
    ensures Written(k, id) == count + ['|' as int] + number
    ensures DigitChars(count) && DecimalValue(count) == k && (k > 0 ==> count[0] != '0' as int)
    ensures DigitChars(number) && DecimalValue(number) == id && (id > 0 ==> number[0] != '0' as int)
  {
    hide Decimal, DecimalValue;
    count, number := Decimal(k), Decimal(id);
    DecimalDenotes(k);
    DecimalDenotes(id);
  }

  /** The announced number of operations: the digits before the bar. */
  function ReadCount(path: Text): nat { Scan(0, path).0 }

  /** The barrier id, read at the fixed offset 2. */
  function ReadId(path: Text): nat
    requires |path| >= 2
  {
    Scan(0, path[2..]).0
  }

  /** The announced number is always read back, and the test of the first byte recognises 0. */
  lemma {:induction false} CountReadBack(k: nat, id: nat)
    ensures ReadCount(Written(k, id)) == k
    ensures Written(k, id)[0] != ZERO <==> k != 0
  {
    assert Written(k, id) == Decimal(k) + ([BAR] + Decimal(id));
    ScanDecimal(0, k, [BAR] + Decimal(id));
  }

  /**
   * The id is read back exactly for one-digit counts, apart from the accident that the digits of a longer count
   * after its second one spell the id.
   */
  lemma {:induction false} IdReadBackIff(k: nat, id: nat)
    requires id >= 1
    ensures ReadId(Written(k, id)) == id <==>
      k <= 9 || (k >= 100 && k % Pow10(|Decimal(k)| - 2) == id)
  {
    var t := Written(k, id);
    var kt := Decimal(k);
    if k <= 9 {
      assert t[2..] == Decimal(id) + [];
      ScanDecimal(0, id, []);
    } else if k <= 99 {
      assert Decimal(k) == Decimal(k / 10) + [48 + k % 10];
      assert t[2..] == [BAR] + Decimal(id);
    } else {
      LongCount(k);
      assert t[2..] == kt[2..] + ([BAR] + Decimal(id));
      ScanTail(k, 2, [BAR] + Decimal(id));
    }
  }

  lemma {:induction false} LongCount(k: nat)
    requires k >= 100
    ensures |Decimal(k)| >= 3
  {
    assert Decimal(k) == Decimal(k / 10) + [48 + k % 10];
    assert Decimal(k / 10) == Decimal(k / 10 / 10) + [48 + k / 10 % 10];
  }

  /** Twelve operations announced at barrier 3 are read as barrier 0. */
  lemma {:induction false} TwoDigitCountMisread()
    ensures ReadId(Written(12, 3)) == 0
  {
    assert Decimal(12) == [49, 50];
    assert Written(12, 3)[2..] == [BAR] + Decimal(3);
  }
}
