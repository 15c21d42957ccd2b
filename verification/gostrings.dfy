/** The few Go library string and number routines the event client relies on:
    `strings.Split`, `strings.HasPrefix`, `strings.Trim`, `strings.TrimPrefix`,
    `strconv.ParseUint(s, 10, 32)` and `fmt`'s `%d` for unsigned integers. */
module GoStrings {
  import opened Results

  const MaxUint32: nat := 0xFFFF_FFFF

  /** Go's `uint32`. */
  type Uint32 = n: nat | n <= MaxUint32

  // ---------------------------------------------------------------------------
  // strings.Split with a one-character separator
  // ---------------------------------------------------------------------------

  /** Index of the first occurrence of `c` in `s`. */
  function IndexOf(s: string, c: char): (i: nat)
    requires c in s
    ensures i < |s| && s[i] == c
    ensures c !in s[..i]
  {
    if s[0] == c then 0
    else
      var k := IndexOf(s[1..], c);
      assert s[..k + 1] == [s[0]] + s[1..][..k];
      k + 1
  }

  /** `strings.Split(s, [sep])`: the maximal separator-free pieces of `s`, in
      order; a string without the separator yields the one-element list `[s]`. */
  function Split(s: string, sep: char): (parts: seq<string>)
    ensures |parts| >= 1
    ensures forall i :: 0 <= i < |parts| ==> sep !in parts[i]
    decreases |s|
  {
    if sep !in s then [s]
    else
      var i := IndexOf(s, sep);
      [s[..i]] + Split(s[i + 1..], sep)
  }

  /** `strings.Join(parts, [sep])`, the inverse of `Split`. */
  function Join(parts: seq<string>, sep: char): string
    requires |parts| >= 1
  {
    if |parts| == 1 then parts[0] else parts[0] + [sep] + Join(parts[1..], sep)
  }

  /** Joining the pieces of a split gives back the original string. */
  lemma {:induction false} SplitJoin(s: string, sep: char)
    ensures Join(Split(s, sep), sep) == s
    decreases |s|
  {
    if sep in s {
      var i := IndexOf(s, sep);
      var parts := Split(s, sep);
      var rest := Split(s[i + 1..], sep);
      assert parts == [s[..i]] + rest;
      assert parts[1..] == rest;
      SplitJoin(s[i + 1..], sep);
      assert Join(parts, sep) == s[..i] + [sep] + Join(rest, sep);
      assert s == s[..i] + [sep] + s[i + 1..];
    }
  }

  /** A string that splits into two fields is those fields around one separator. */
  lemma SplitTwo(s: string, sep: char)
    requires |Split(s, sep)| == 2
    ensures s == Split(s, sep)[0] + [sep] + Split(s, sep)[1]
  {
  }

  /** A string that splits into three fields is those fields around two separators. */
  lemma SplitThree(s: string, sep: char)
    requires |Split(s, sep)| == 3
    ensures s == Split(s, sep)[0] + [sep] + Split(s, sep)[1] + [sep] + Split(s, sep)[2]
  {
    var sp := Split(s, sep);
    SplitJoin(s, sep);
    assert sp[1..][1..] == sp[2..];
    assert Join(sp[1..], sep) == sp[1] + [sep] + sp[2];
  }

  /** Splitting a separator-free string gives that string alone. */
  lemma SplitNoSeparator(s: string, sep: char)
    requires sep !in s
    ensures Split(s, sep) == [s]
  {
  }

  /** Splitting `a + sep + b` when `a` holds no separator peels off `a`. */
  lemma SplitCons(a: string, sep: char, b: string)
    requires sep !in a
    ensures Split(a + [sep] + b, sep) == [a] + Split(b, sep)
  {
    var s := a + [sep] + b;
    assert s[|a|] == sep;
    var i := IndexOf(s, sep);
    assert s[..i] == a;
    assert s[i + 1..] == b;
  }

  // ---------------------------------------------------------------------------
  // Prefixes and cutset trimming
  // ---------------------------------------------------------------------------

  /** `strings.HasPrefix(s, prefix)`. */
  predicate HasPrefix(s: string, prefix: string)
    ensures HasPrefix(s, prefix) <==> exists rest :: s == prefix + rest
  {
    assert |prefix| <= |s| ==> s == s[..|prefix|] + s[|prefix|..];
    |prefix| <= |s| && s[..|prefix|] == prefix
  }

  /** `strings.TrimPrefix(s, prefix)`: drops `prefix` once when `s` starts with it. */
  function TrimPrefix(s: string, prefix: string): (r: string)
    ensures HasPrefix(s, prefix) ==> prefix + r == s
    ensures !HasPrefix(s, prefix) ==> r == s
  {
    if HasPrefix(s, prefix) then
      assert s == s[..|prefix|] + s[|prefix|..];
      s[|prefix|..]
    else s
  }

  /** `strings.TrimLeft(s, cutset)`: drops every leading character that is in `cutset`. */
  function TrimLeft(s: string, cutset: string): (r: string)
    ensures |r| <= |s| && r == s[|s| - |r|..]
    ensures forall i :: 0 <= i < |s| - |r| ==> s[i] in cutset
    ensures r == [] || r[0] !in cutset
  {
    if s != [] && s[0] in cutset then TrimLeft(s[1..], cutset) else s
  }

  /** `strings.TrimRight(s, cutset)`: drops every trailing character that is in `cutset`. */
  function TrimRight(s: string, cutset: string): (r: string)
    ensures |r| <= |s| && r == s[..|r|]
    ensures forall i :: |r| <= i < |s| ==> s[i] in cutset
    ensures r == [] || r[|r| - 1] !in cutset
  {
    if s != [] && s[|s| - 1] in cutset then TrimRight(s[..|s| - 1], cutset) else s
  }

  /** `TrimLeft` stops exactly at the first character outside the cutset. */
  lemma TrimLeftStopsAt(s: string, cutset: string, k: nat)
    requires k <= |s|
    requires forall i :: 0 <= i < k ==> s[i] in cutset
    requires k == |s| || s[k] !in cutset
    ensures TrimLeft(s, cutset) == s[k..]
  {
  }

  /** `TrimRight` stops exactly after the last character outside the cutset. */
  lemma TrimRightStopsAt(s: string, cutset: string, k: nat)
    requires k <= |s|
    requires forall i :: k <= i < |s| ==> s[i] in cutset
    requires k == 0 || s[k - 1] !in cutset
    ensures TrimRight(s, cutset) == s[..k]
  {
  }

  /** `strings.Trim(s, cutset)`: trims cutset characters from both ends; the
      cutset is a set of characters, not a prefix or suffix to remove. */
  function Trim(s: string, cutset: string): (r: string)
    ensures |r| <= |s|
    ensures exists lo, hi :: TrimmedTo(s, cutset, r, lo, hi)
    ensures r == [] || (r[0] !in cutset && r[|r| - 1] !in cutset)
    ensures r == [] <==> forall i :: 0 <= i < |s| ==> s[i] in cutset
  {
    var left := TrimLeft(s, cutset);
    var r := TrimRight(left, cutset);
    assert r != [] ==> r[0] == left[0];
    TrimBothEnds(s, left, r, cutset);
    r
  }

  /** A suffix of `s` trimmed down to one of its prefixes is a slice of `s`
      with only cutset characters outside it, when only cutset characters were
      dropped on each side. */
  lemma TrimBothEnds(s: string, left: string, r: string, cutset: string)
    requires |left| <= |s| && left == s[|s| - |left|..]
    requires forall i :: 0 <= i < |s| - |left| ==> s[i] in cutset
    requires |r| <= |left| && r == left[..|r|]
    requires forall i :: |r| <= i < |left| ==> left[i] in cutset
    ensures TrimmedTo(s, cutset, r, |s| - |left|, |s| - |left| + |r|)
  {
    var lo := |s| - |left|;
    forall i | lo + |r| <= i < |s|
      ensures s[i] in cutset
    {
      assert s[i] == left[i - lo];
    }
  }

  /** `r` is the slice `s[lo..hi]` and everything outside it is in the cutset. */
  predicate TrimmedTo(s: string, cutset: string, r: string, lo: int, hi: int) {
    && 0 <= lo <= hi <= |s|
    && r == s[lo..hi]
    && (forall i :: 0 <= i < lo ==> s[i] in cutset)
    && (forall i :: hi <= i < |s| ==> s[i] in cutset)
  }

  // ---------------------------------------------------------------------------
  // Decimal numbers: strconv.ParseUint(s, 10, 32) and fmt's %d
  // ---------------------------------------------------------------------------

  predicate IsDigit(c: char) {
    '0' <= c <= '9'
  }

  predicate AllDigits(s: string) {
    forall i :: 0 <= i < |s| ==> IsDigit(s[i])
  }

  function DigitValue(c: char): nat
    requires IsDigit(c)
  {
    c as nat - '0' as nat
  }

  /** The value of a string of decimal digits, read most significant first. */
  function DecimalValue(s: string): nat
    requires AllDigits(s)
  {
    if s == [] then 0 else DecimalValue(s[..|s| - 1]) * 10 + DigitValue(s[|s| - 1])
  }

  /** Reference definition of the strings `ParseUint(s, 10, 32)` accepts:
      a non-empty run of decimal digits (leading zeros allowed, no sign, no
      underscores) whose value fits in 32 bits. */
  predicate IsUint32(s: string) {
    s != [] && AllDigits(s) && DecimalValue(s) <= MaxUint32
  }

  /** A digit string is separator-free. */
  lemma DigitsHaveNoColon(s: string)
    requires AllDigits(s)
    ensures ':' !in s
  {
  }

  /** A longer digit string never has a smaller value than its prefixes. */
  lemma {:induction false} DecimalValuePrefix(s: string, j: nat)
    requires AllDigits(s) && j <= |s|
    ensures DecimalValue(s[..j]) <= DecimalValue(s)
    decreases |s|
  {
    if j < |s| {
      var t := s[..|s| - 1];
      assert t[..j] == s[..j];
      DecimalValuePrefix(t, j);
    } else {
      assert s[..j] == s;
    }
  }

  datatype NumError = ErrSyntax | ErrRange

  /** The first non-digit of `s` is at `j`, and the digits before it fit in 32 bits. */
  predicate StopsAtNonDigit(s: string, j: int) {
    0 <= j < |s| && !IsDigit(s[j]) && AllDigits(s[..j]) && DecimalValue(s[..j]) <= MaxUint32
  }

  /** The first `j` characters of `s` are digits whose value exceeds 32 bits. */
  predicate OverflowsAt(s: string, j: int) {
    0 <= j <= |s| && AllDigits(s[..j]) && DecimalValue(s[..j]) > MaxUint32
  }

  /** The digit loop of `strconv.ParseUint` for base 10 and bit size 32, from
      position `i` with `n` the value of the digits already read: a non-digit
      is a syntax error, a value above the 32-bit maximum a range error,
      whichever is met first. */
  function ParseDigits(s: string, i: nat, n: Uint32): (r: Result<Uint32, NumError>)
    requires i <= |s| && AllDigits(s[..i]) && n == DecimalValue(s[..i])
    ensures r.Success? <==> AllDigits(s) && DecimalValue(s) <= MaxUint32
    ensures r.Success? ==> r.value == DecimalValue(s)
    ensures r == Failure(ErrSyntax) ==> exists j :: i <= j && StopsAtNonDigit(s, j)
    ensures r == Failure(ErrRange) ==> exists j :: i < j && OverflowsAt(s, j)
    decreases |s| - i
  {
    if i == |s| then
      assert s[..i] == s;
      Success(n)
    else if !IsDigit(s[i]) then
      assert StopsAtNonDigit(s, i);
      Failure(ErrSyntax)
    else
      var n1 := n * 10 + DigitValue(s[i]);
      assert s[..i + 1][..i] == s[..i];
      assert AllDigits(s[..i + 1]);
      assert n1 == DecimalValue(s[..i + 1]);
      if n1 > MaxUint32 then
        assert AllDigits(s) ==> DecimalValue(s) > MaxUint32 by {
          if AllDigits(s) {
            DecimalValuePrefix(s, i + 1);
          }
        }
        assert OverflowsAt(s, i + 1);
        Failure(ErrRange)
      else
        ParseDigits(s, i + 1, n1)
  }

  /** `strconv.ParseUint(s, 10, 32)`: the empty string is a syntax error. */
  function ParseUint32(s: string): (r: Result<Uint32, NumError>)
    ensures r.Success? <==> IsUint32(s)
    ensures r.Success? ==> r.value == DecimalValue(s)
    ensures r == Failure(ErrSyntax) ==> s == [] || exists j :: StopsAtNonDigit(s, j)
    ensures r == Failure(ErrRange) ==> exists j :: OverflowsAt(s, j)
  {
    if s == [] then Failure(ErrSyntax)
    else
      assert s[..0] == [];
      ParseDigits(s, 0, 0)
  }

  function DigitChar(d: nat): (c: char)
    requires d < 10
    ensures IsDigit(c) && DigitValue(c) == d
  {
    ('0' as nat + d) as char
  }

  /** `fmt.Sprintf("%d", n)` for a non-negative integer: shortest decimal digits. */
  function Decimal(n: nat): (r: string)
    ensures r != [] && AllDigits(r)
    ensures r[0] == '0' ==> n == 0 && |r| == 1
  {
    if n < 10 then [DigitChar(n)] else Decimal(n / 10) + [DigitChar(n % 10)]
  }

  /** `%d` output is a non-empty digit string that reads back as the same number. */
  lemma {:induction false} DecimalRoundTrip(n: nat)
    ensures Decimal(n) != [] && AllDigits(Decimal(n))
    ensures DecimalValue(Decimal(n)) == n
  {
    var s := Decimal(n);
    if n >= 10 {
      DecimalRoundTrip(n / 10);
      assert s[..|s| - 1] == Decimal(n / 10);
    } else {
      assert s[..0] == [];
    }
  }

  /** `ParseUint(fmt.Sprintf("%d", n), 10, 32)` gives back every 32-bit `n`. */
  lemma ParseFormattedUint32(n: Uint32)
    ensures ParseUint32(Decimal(n)) == Success(n)
  {
    DecimalRoundTrip(n);
  }
}
