// String operations the components share, with the meaning Python gives them
// on ASCII text: one char is one character, digits are '0'..'9'.
module Text {

  datatype Option<+T> = None | Some(value: T)

  function ValueOr<T>(o: Option<T>, default: T): T { if o.Some? then o.value else default }

  // ---------------------------------------------------------------- numbers

  predicate IsDigit(c: char) { '0' <= c <= '9' }

  predicate AllDigits(s: string) { forall i :: 0 <= i < |s| ==> IsDigit(s[i]) }

  function Digit(n: nat): char
    requires n < 10
  {
    '0' + n as char
  }

  // str(n) for a natural number.
  function Decimal(n: nat): (s: string)
    ensures s != "" && AllDigits(s)
  {
    if n < 10 then [Digit(n)] else Decimal(n / 10) + [Digit(n % 10)]
  }

  // int(s) for a string of digits.
  function Value(s: string): nat
    requires AllDigits(s)
  {
    if s == "" then 0 else Value(s[..|s| - 1]) * 10 + (s[|s| - 1] as int - '0' as int)
  }

  lemma {:induction false} DecimalRoundTrip(n: nat)
    ensures Value(Decimal(n)) == n
  {
    if n >= 10 {
      DecimalRoundTrip(n / 10);
      var s := Decimal(n);
      assert s[..|s| - 1] == Decimal(n / 10);
    }
  }

  // ----------------------------------------------------------------- search

  predicate OccursAt(s: string, sub: string, i: nat) {
    i + |sub| <= |s| && s[i..i + |sub|] == sub
  }

  ghost predicate Contains(s: string, sub: string) {
    exists i: nat :: OccursAt(s, sub, i)
  }

  // s.find(sub, from), with None for -1.
  function FindFrom(s: string, sub: string, from: nat): (r: Option<nat>)
    ensures r.Some? ==> r.value + |sub| <= |s|
    decreases |s| - from
  {
    if from + |sub| > |s| then None
    else if OccursAt(s, sub, from) then Some(from)
    else FindFrom(s, sub, from + 1)
  }

  function Find(s: string, sub: string): (r: Option<nat>)
    ensures r.Some? ==> r.value + |sub| <= |s|
  {
    FindFrom(s, sub, 0)
  }

  // The search stops at i exactly when i is the first occurrence.
  ghost predicate First(s: string, sub: string, from: nat, i: nat) {
    from <= i && OccursAt(s, sub, i) && forall j: nat :: from <= j < i ==> !OccursAt(s, sub, j)
  }

  lemma {:induction false} FindsFirst(s: string, sub: string, from: nat)
    ensures match FindFrom(s, sub, from)
            case Some(i) => First(s, sub, from, i)
            case None => forall j: nat :: from <= j ==> !OccursAt(s, sub, j)
    decreases |s| - from
  {
    if from + |sub| <= |s| && !OccursAt(s, sub, from) {
      FindsFirst(s, sub, from + 1);
    }
  }

  // s.find(c) for one character.
  function Position(s: string, c: char): (r: Option<nat>)
    ensures r.Some? ==> r.value < |s| && s[r.value] == c && forall j :: 0 <= j < r.value ==> s[j] != c
    ensures r.None? ==> forall j :: 0 <= j < |s| ==> s[j] != c
  {
    PositionFrom(s, c, 0)
  }

  function PositionFrom(s: string, c: char, k: nat): (r: Option<nat>)
    requires k <= |s|
    ensures r.Some? ==> k <= r.value < |s| && s[r.value] == c && forall j :: k <= j < r.value ==> s[j] != c
    ensures r.None? ==> forall j :: k <= j < |s| ==> s[j] != c
    decreases |s| - k
  {
    if k == |s| then None else if s[k] == c then Some(k) else PositionFrom(s, c, k + 1)
  }

  lemma PositionIs(s: string, c: char, i: nat)
    requires i < |s| && s[i] == c && forall j :: 0 <= j < i ==> s[j] != c
    ensures Position(s, c) == Some(i)
  {
  }

  // ------------------------------------------------------------- whitespace

  predicate IsSpace(c: char) { c == ' ' || '\t' <= c <= '\r' || '\U{1C}' <= c <= '\U{1F}' }

  // Tab to carriage return, the four separators, and the space.
  lemma BlanksAre(c: char)
    ensures IsSpace(c) <==> 9 <= c as int <= 13 || 28 <= c as int <= 32
  {
  }

  // Where the leading blanks from k end, and where the trailing ones before k begin.
  function Leading(s: string, k: nat): (n: nat)
    requires k <= |s|
    ensures k <= n <= |s| && (n < |s| ==> !IsSpace(s[n]))
    ensures forall i :: k <= i < n ==> IsSpace(s[i])
    decreases |s| - k
  {
    if k < |s| && IsSpace(s[k]) then Leading(s, k + 1) else k
  }

  function Trailing(s: string, k: nat): (n: nat)
    requires k <= |s|
    ensures n <= k && (n > 0 ==> !IsSpace(s[n - 1]))
    ensures forall i :: n <= i < k ==> IsSpace(s[i])
    decreases k
  {
    if k > 0 && IsSpace(s[k - 1]) then Trailing(s, k - 1) else k
  }

  function TrimLeft(s: string): string { s[Leading(s, 0)..] }

  function TrimRight(s: string): string { s[..Trailing(s, |s|)] }

  // s.strip()
  function Strip(s: string): string { TrimLeft(TrimRight(s)) }

  // ------------------------------------------------------------------ order

  // Python's a < b on strings: by code point, a prefix before its extension.
  predicate Less(a: string, b: string) {
    b != "" && (a == "" || a[0] < b[0] || (a[0] == b[0] && Less(a[1..], b[1..])))
  }

  // The first character where they differ decides; a string comes before its
  // extensions.
  ghost predicate ComesBefore(a: string, b: string, i: nat) {
    && i <= |a| && i < |b| && a[..i] == b[..i] && (i == |a| || a[i] < b[i])
  }

  lemma {:induction false} LessIs(a: string, b: string)
    ensures Less(a, b) <==> exists i: nat :: ComesBefore(a, b, i)
    decreases |a|
  {
    if a == "" || b == "" || a[0] != b[0] {
      assert b != "" && (a == "" || a[0] < b[0]) ==> ComesBefore(a, b, 0);
      assert forall i: nat | ComesBefore(a, b, i) :: i > 0 ==> a[..i][0] == b[..i][0];
    } else {
      LessIs(a[1..], b[1..]);
      if i: nat :| ComesBefore(a[1..], b[1..], i) {
        assert a[..i + 1] == [a[0]] + a[1..][..i] && b[..i + 1] == [b[0]] + b[1..][..i];
        assert ComesBefore(a, b, i + 1);
      }
      if i: nat :| ComesBefore(a, b, i) {
        assert i > 0;
        assert a[1..][..i - 1] == a[..i][1..] && b[1..][..i - 1] == b[..i][1..];
        assert ComesBefore(a[1..], b[1..], i - 1);
      }
    }
  }

  lemma {:induction false} LessTotal(a: string, b: string)
    ensures Less(a, b) || a == b || Less(b, a)
  {
    if a != "" && b != "" && a[0] == b[0] {
      LessTotal(a[1..], b[1..]);
      assert a == [a[0]] + a[1..] && b == [b[0]] + b[1..];
    }
  }

  lemma {:induction false} LessTransitive(a: string, b: string, c: string)
    requires Less(a, b) && Less(b, c)
    ensures Less(a, c)
  {
    if a != "" && a[0] == b[0] == c[0] {
      LessTransitive(a[1..], b[1..], c[1..]);
    }
  }
}
