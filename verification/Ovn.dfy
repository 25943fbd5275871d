/**
 The printed version tag ("OVN") of a stored reference: `ovn-<id>-<version>`.
 Identifiers are arbitrary strings, hyphens and digits included, so it is the decimal
 version at the end that makes the print unambiguous.
 */
module Ovn {
  import opened Wrappers

  function Digit(d: nat): (c: char)
    requires d < 10
    ensures c != '-'
  {
    "0123456789"[d]
  }

  function Decimal(n: nat): (s: string)
    ensures |s| >= 1 && '-' !in s
    ensures n < 10 <==> |s| == 1
  {
    if n < 10 then [Digit(n)] else Decimal(n / 10) + [Digit(n % 10)]
  }

  function Print(id: string, version: nat): string {
    "ovn-" + id + "-" + Decimal(version)
  }

  lemma {:induction false} DecimalInjective(a: nat, b: nat)
    requires Decimal(a) == Decimal(b)
    ensures a == b
  {
    if a >= 10 && b >= 10 {
      assert Front(Decimal(a)) == Decimal(a / 10);
      assert Front(Decimal(b)) == Decimal(b / 10);
      assert Last(Decimal(a)) == Digit(a % 10) && Last(Decimal(b)) == Digit(b % 10);
      DecimalInjective(a / 10, b / 10);
    } else {
      assert Last(Decimal(a)) == Last(Decimal(b));
    }
  }

  /** Where the last hyphen of a printed OVN is, and what stands on its two sides. */
  lemma LastHyphen(id: string, v: nat, hyphen: int)
    requires hyphen == |Print(id, v)| - |Decimal(v)| - 1
    ensures 4 <= hyphen < |Print(id, v)| && Print(id, v)[hyphen] == '-'
    ensures forall k :: hyphen < k < |Print(id, v)| ==> Print(id, v)[k] != '-'
    ensures Print(id, v)[4..hyphen] == id && Print(id, v)[hyphen + 1..] == Decimal(v)
  {
    var s := Print(id, v);
    assert s[hyphen + 1..] == Decimal(v);
    forall k | hyphen < k < |s|
      ensures s[k] != '-'
    {
      assert s[k] == Decimal(v)[k - hyphen - 1];
      assert s[k] in Decimal(v);
    }
  }

  /** No two different (identifier, version) pairs share a printed OVN. */
  lemma PrintInjective(id: string, v: nat, id': string, v': nat)
    requires Print(id, v) == Print(id', v')
    ensures id == id' && v == v'
  {
    var s, s' := Print(id, v), Print(id', v');
    var h, h' := |s| - |Decimal(v)| - 1, |s'| - |Decimal(v')| - 1;
    LastHyphen(id, v, h);
    LastHyphen(id', v', h');
    assert s[h] == '-' && s'[h'] == '-';
    assert h == h';
    DecimalInjective(v, v');
  }

  // ---- reading a printed OVN ----

  /** A decimal numeral without leading zeros. */
  predicate IsNumeral(s: string) {
    s != "" && (forall i :: 0 <= i < |s| ==> '0' <= s[i] <= '9') && (|s| > 1 ==> s[0] != '0')
  }

  function Value(s: string): nat
    requires forall i :: 0 <= i < |s| ==> '0' <= s[i] <= '9'
  {
    if s == "" then 0 else 10 * Value(Front(s)) + (Last(s) as int - '0' as int)
  }

  lemma {:induction false} DecimalReadsBack(n: nat)
    ensures IsNumeral(Decimal(n)) && Value(Decimal(n)) == n && (Decimal(n)[0] == '0' ==> n == 0)
  {
    var d := [Digit(n % 10)];
    assert '0' <= d[0] <= '9' && d[0] as int - '0' as int == n % 10;
    if n < 10 {
      assert Front(d) == "";
    } else {
      DecimalReadsBack(n / 10);
      FrontOfAppend(Decimal(n / 10), d[0]);
    }
  }

  /** The tag starts with `ovn-`, goes on with the identifier up to its last hyphen, and ends in the version. */
  lemma PrintReadsBack(id: string, v: nat) returns (hyphen: nat)
    ensures var s := Print(id, v);
      && 4 <= hyphen < |s| && s[..4] == "ovn-" && s[4..hyphen] == id && s[hyphen] == '-'
      && '-' !in s[hyphen + 1..] && IsNumeral(s[hyphen + 1..]) && Value(s[hyphen + 1..]) == v
  {
    hyphen := |Print(id, v)| - |Decimal(v)| - 1;
    LastHyphen(id, v, hyphen);
    DecimalReadsBack(v);
  }
}
