/** EOS account names as 64-bit numbers (keepkeylib/eos.py). */
module EosNames {

  const NAME_LENGTH: nat := 13

  /** `char_to_symbol`. */
  function SymbolOf(c: char): (n: nat)
    ensures n < 32
  {
    if 'a' <= c <= 'z' then c as int - 'a' as int + 6
    else if '1' <= c <= '5' then c as int - '1' as int + 1
    else 0
  }

  /** Symbol `i` of a name; missing ones are 0, and the last has four bits. */
  function SymbolAt(name: string, i: nat): (n: nat)
    ensures n < if i < 12 then 32 else 16
  {
    var c := if i < |name| && i < NAME_LENGTH then SymbolOf(name[i]) else 0;
    if i < 12 then c else c % 16
  }

  /** The first `k` symbols as a number to the base 32. */
  function Leading(name: string, k: nat): nat {
    if k == 0 then 0 else 32 * Leading(name, k - 1) + SymbolAt(name, k - 1)
  }

  /** Twelve symbols of five bits and one of four. */
  function Number(name: string): nat {
    16 * Leading(name, 12) + SymbolAt(name, 12)
  }

  /** `1 << bits`. */
  function Shifted(bits: nat): (w: nat)
    ensures w > 0
  {
    if bits == 0 then 1 else 2 * Shifted(bits - 1)
  }

  lemma ShiftedFive(bits: nat)
    ensures Shifted(bits + 5) == 32 * Shifted(bits)
  {
    ShiftedFour(bits);
    assert Shifted(bits + 5) == 2 * Shifted(bits + 4);
  }

  lemma ShiftedFour(bits: nat)
    ensures Shifted(bits + 4) == 16 * Shifted(bits)
  {
    assert Shifted(bits + 2) == 2 * Shifted(bits + 1) == 4 * Shifted(bits);
    assert Shifted(bits + 4) == 2 * Shifted(bits + 3) == 4 * Shifted(bits + 2);
  }

  lemma {:induction false} LeadingBound(name: string, k: nat)
    requires k <= 12
    ensures Leading(name, k) < Shifted(5 * k)
  {
    if k > 0 {
      LeadingBound(name, k - 1);
      ShiftedFive(5 * (k - 1));
    }
  }

  lemma Distribute(h: nat, c: nat, w: nat)
    ensures h * (32 * w) + c * w == (32 * h + c) * w
  {
  }

  /** The loop over the thirteen positions. Each symbol is shifted to bits that
      are still clear, so the source's `|=` adds. */
  method NameToNumber(name: string) returns (value: nat)
    ensures value == Number(name) && value < Shifted(64)
  {
    hide Shifted, Leading, SymbolAt;
    NothingYet(name);
    value := 0;
    for i := 0 to NAME_LENGTH
      invariant i <= 12 ==> value == Leading(name, i) * Shifted(64 - 5 * i)
      invariant i == 13 ==> value == Number(name)
    {
      var c := SymbolAt(name, i);
      if i < 12 {
        ShiftedFive(64 - 5 * (i + 1));
        Distribute(Leading(name, i), c, Shifted(64 - 5 * (i + 1)));
        LeadingNext(name, i);
        value := value + c * Shifted(64 - 5 * (i + 1));
      } else {
        NothingYet(name);
        value := value + c;
      }
    }
    LeadingBound(name, 12);
    ShiftedFour(60);
  }

  lemma NothingYet(name: string)
    ensures Leading(name, 0) == 0 && Shifted(4) == 16
  {
    ShiftedFour(0);
  }

  lemma LeadingNext(name: string, i: nat)
    ensures Leading(name, i + 1) == 32 * Leading(name, i) + SymbolAt(name, i)
  {
  }

  // ------------------------------------------------------------------- decoding

  /** The low `k` groups of five bits, highest first. */
  function Groups(n: nat, k: nat): (r: seq<nat>)
    ensures |r| == k && forall i :: 0 <= i < k ==> r[i] < 32
  {
    if k == 0 then [] else Groups(n / 32, k - 1) + [n % 32]
  }

  /** The thirteen symbols of a number. */
  function Symbols(n: nat): (r: seq<nat>)
    ensures |r| == NAME_LENGTH && AllSmall(r)
  {
    Groups(n / 16, 12) + [n % 16]
  }

  lemma {:induction false} GroupsOfLeading(name: string, k: nat, i: nat)
    requires i < k <= 12
    ensures Groups(Leading(name, k), k)[i] == SymbolAt(name, i)
  {
    if i < k - 1 {
      GroupsOfLeading(name, k - 1, i);
    }
  }

  lemma SymbolsOfNumber(name: string, i: nat)
    requires i < NAME_LENGTH
    ensures Symbols(Number(name))[i] == SymbolAt(name, i)
  {
    hide Leading, SymbolAt, Groups;
    LastSymbol(Leading(name, 12), SymbolAt(name, 12));
    if i < 12 {
      GroupsOfLeading(name, 12, i);
    }
  }

  lemma LastSymbol(n: nat, c: nat)
    requires c < 16
    ensures (16 * n + c) / 16 == n && (16 * n + c) % 16 == c
  {
  }

  /** The characters names are written with; a thirteenth has symbols below 16. */
  predicate IsName(name: string) {
    && |name| <= NAME_LENGTH
    && (forall i :: 0 <= i < |name| ==> name[i] == '.' || '1' <= name[i] <= '5' || 'a' <= name[i] <= 'z')
    && (|name| == NAME_LENGTH ==> SymbolOf(name[12]) < 16)
  }

  function CharOf(symbol: nat): char
    requires symbol < 32
  {
    if symbol == 0 then '.'
    else if symbol < 6 then ('1' as int + symbol - 1) as char
    else ('a' as int + symbol - 6) as char
  }

  /** A name without the dots at its end. */
  function TrimDots(name: string): string {
    if name != "" && name[|name| - 1] == '.' then TrimDots(name[..|name| - 1]) else name
  }

  function Padded(name: string): (r: string)
    requires |name| <= NAME_LENGTH
    ensures |r| == NAME_LENGTH
  {
    name + seq(NAME_LENGTH - |name|, _ => '.')
  }

  predicate AllSmall(symbols: seq<nat>) {
    forall i :: 0 <= i < |symbols| ==> symbols[i] < 32
  }

  function Spelled(symbols: seq<nat>): (r: string)
    requires AllSmall(symbols)
    ensures |r| == |symbols|
  {
    seq(|symbols|, i requires 0 <= i < |symbols| => CharOf(symbols[i]))
  }

  /** The number's symbols spell the name again, up to dots at its end. */
  lemma {:induction false} DecodeRecovers(name: string)
    requires IsName(name)
    ensures Spelled(Symbols(Number(name))) == Padded(name)
    ensures TrimDots(Spelled(Symbols(Number(name)))) == TrimDots(name)
  {
    var symbols := Symbols(Number(name));
    forall k | 0 <= k < NAME_LENGTH
      ensures symbols[k] < 32 && CharOf(symbols[k]) == Padded(name)[k]
    {
      SymbolsOfNumber(name, k);
      SpellSymbol(name, k);
    }
    assert Spelled(symbols) == Padded(name);
    TrimPadding(name, NAME_LENGTH - |name|);
  }

  lemma {:induction false} TrimPadding(name: string, n: nat)
    ensures TrimDots(name + seq(n, _ => '.')) == TrimDots(name)
  {
    var padded := name + seq(n, _ => '.');
    if n == 0 {
      assert padded == name;
    } else {
      TrimPadding(name, n - 1);
      assert padded[..|padded| - 1] == name + seq(n - 1, _ => '.');
    }
  }

  lemma SpellSymbol(name: string, k: nat)
    requires IsName(name) && k < NAME_LENGTH
    ensures SymbolAt(name, k) < 32 && CharOf(SymbolAt(name, k)) == Padded(name)[k]
  {
  }

  // ---------------------------------------------------------------------- order

  predicate SameSymbols(a: string, b: string, k: nat) {
    forall i :: 0 <= i < k ==> SymbolAt(a, i) == SymbolAt(b, i)
  }

  /** In the first `k` symbols, the first difference is smaller in `a`. */
  predicate SymbolsLess(a: string, b: string, k: nat) {
    exists i :: 0 <= i < k && SymbolAt(a, i) < SymbolAt(b, i) && SameSymbols(a, b, i)
  }

  lemma {:induction false} LeadingOrder(a: string, b: string, k: nat)
    requires k <= 12
    ensures Leading(a, k) < Leading(b, k) <==> SymbolsLess(a, b, k)
    ensures Leading(a, k) == Leading(b, k) <==> SameSymbols(a, b, k)
  {
    if k > 0 {
      LeadingOrder(a, b, k - 1);
      LessNext(a, b, k - 1);
    }
  }

  lemma LessNext(a: string, b: string, k: nat)
    ensures SymbolsLess(a, b, k + 1) <==>
              SymbolsLess(a, b, k) || (SameSymbols(a, b, k) && SymbolAt(a, k) < SymbolAt(b, k))
  {
    if SymbolsLess(a, b, k) {
      var i :| 0 <= i < k && SymbolAt(a, i) < SymbolAt(b, i) && SameSymbols(a, b, i);
      assert 0 <= i < k + 1;
    }
  }

  /** Numbers are ordered as the names' symbols are, from the first on. */
  lemma OrderAgrees(a: string, b: string)
    ensures Number(a) < Number(b) <==> SymbolsLess(a, b, NAME_LENGTH)
  {
    LeadingOrder(a, b, 12);
    LessNext(a, b, 12);
  }

  /** Distinct names, up to dots at their ends, have distinct numbers. */
  lemma NumbersDistinct(a: string, b: string)
    requires IsName(a) && IsName(b) && Number(a) == Number(b)
    ensures TrimDots(a) == TrimDots(b)
  {
    DecodeRecovers(a);
    DecodeRecovers(b);
  }
}
