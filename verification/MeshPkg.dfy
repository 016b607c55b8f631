/**
 The version comparison of package/roamd/src/mesh_pkg.c: two pointers that read a number with
 strtoul, compare, step over one separator each, and go on.
 */
module MeshPkg {
  import opened StringOrder

  // ---------------------------------------------------------------- strtoul

  predicate IsSpace(c: char) {
    c == ' ' || 9 <= c as int <= 13
  }

  predicate IsDigit(c: char) {
    '0' <= c <= '9'
  }

  function SpaceEnd(s: string, p: nat): (q: nat)
    requires p <= |s|
    ensures p <= q <= |s|
    decreases |s| - p
  {
    if p < |s| && IsSpace(s[p]) then SpaceEnd(s, p + 1) else p
  }

  /** The first character from p on that is no digit, or the end. */
  function DigitEnd(s: string, p: nat): (q: nat)
    requires p <= |s|
    ensures p <= q <= |s|
    decreases |s| - p
  {
    if p < |s| && IsDigit(s[p]) then DigitEnd(s, p + 1) else p
  }

  function Value(digits: string): nat
    requires forall i :: 0 <= i < |digits| ==> IsDigit(digits[i])
  {
    if digits == "" then 0
    else
      assert IsDigit(digits[|digits| - 1]);
      10 * Value(digits[..|digits| - 1]) + (digits[|digits| - 1] as int - '0' as int)
  }

  lemma {:induction false} DigitRun(s: string, p: nat)
    requires p <= |s|
    ensures forall i :: p <= i < DigitEnd(s, p) ==> IsDigit(s[i])
    ensures DigitEnd(s, p) < |s| ==> !IsDigit(s[DigitEnd(s, p)])
    decreases |s| - p
  {
    if p < |s| && IsDigit(s[p]) {
      DigitRun(s, p + 1);
    }
  }

  datatype Number = Number(value: nat, end: nat)

  /** strtoul in base ten with an unsigned long of at most max: 0 and no step where no digit stands. */
  function Strtoul(s: string, p: nat, max: nat): (n: Number)
    requires p <= |s|
    ensures p <= n.end <= |s|
  {
    var q := SpaceEnd(s, p);
    var d := if q < |s| && (s[q] == '+' || s[q] == '-') then q + 1 else q;
    var e := DigitEnd(s, d);
    if e == d then Number(0, p)
    else
      DigitRun(s, d);
      var v := Value(s[d..e]);
      if v > max then Number(max, e)
      else if s[q] == '-' && v > 0 then Number(max + 1 - v, e)
      else Number(v, e)
  }

  // ---------------------------------------------------------------- the order

  const END: int := -1

  /** Numbers and separators from p on, with a mark at the end. */
  function Key(s: string, p: nat, max: nat): (k: seq<int>)
    requires p <= |s|
    ensures k != []
    decreases |s| - p
  {
    var n := Strtoul(s, p, max);
    if n.end == |s| then [n.value, END]
    else [n.value, s[n.end] as int] + Key(s, n.end + 1, max)
  }

  /** 1 when b is greater in lexicographic order, -1 when a is, 0 when they are equal. */
  function Lex(a: seq<int>, b: seq<int>): (r: int)
    ensures -1 <= r <= 1
  {
    if a == [] && b == [] then 0
    else if a == [] then 1
    else if b == [] then -1
    else if a[0] != b[0] then (if b[0] > a[0] then 1 else -1)
    else Lex(a[1..], b[1..])
  }

  lemma {:induction false} LexZero(a: seq<int>, b: seq<int>)
    ensures Lex(a, b) == 0 <==> a == b
  {
    if a != [] && b != [] && a[0] == b[0] {
      LexZero(a[1..], b[1..]);
      assert a == [a[0]] + a[1..] && b == [b[0]] + b[1..];
    }
  }

  lemma {:induction false} LexFlip(a: seq<int>, b: seq<int>)
    ensures Lex(a, b) == -Lex(b, a)
  {
    if a != [] && b != [] && a[0] == b[0] {
      LexFlip(a[1..], b[1..]);
    }
  }

  lemma {:induction false} LexTrans(a: seq<int>, b: seq<int>, c: seq<int>)
    requires Lex(a, b) >= 0 && Lex(b, c) >= 0
    ensures Lex(a, c) >= 0
    ensures Lex(a, b) > 0 || Lex(b, c) > 0 ==> Lex(a, c) > 0
  {
    if a != [] && b != [] && c != [] && a[0] == b[0] == c[0] {
      LexTrans(a[1..], b[1..], c[1..]);
    }
  }

  lemma LexPrefix(h: seq<int>, a: seq<int>, b: seq<int>)
    ensures Lex(h + a, h + b) == Lex(a, b)
  {
    if h == [] {
      assert h + a == a && h + b == b;
    } else {
      assert (h + a)[1..] == h[1..] + a && (h + b)[1..] == h[1..] + b;
      LexPrefix(h[1..], a, b);
    }
  }

  /** Which of two versions is newer: 1 when want is, -1 when have is, 0 when neither is. */
  function Newer(have: string, want: string, max: nat): int {
    if have == "" || want == "" then 0 else Lex(Key(have, 0, max), Key(want, 0, max))
  }

  function Mark(s: string, e: nat): int
    requires e <= |s|
  {
    if e == |s| then END else s[e] as int
  }

  /** One round of the loop decides, or leaves the rest of both to decide. */
  lemma KeyStep(have: string, want: string, i: nat, j: nat, max: nat)
    requires i <= |have| && j <= |want|
    ensures var a, b := Strtoul(have, i, max), Strtoul(want, j, max);
            var ma, mb := Mark(have, a.end), Mark(want, b.end);
            Lex(Key(have, i, max), Key(want, j, max)) ==
            if a.value != b.value then (if b.value > a.value then 1 else -1)
            else if ma != mb then (if mb > ma then 1 else -1)
            else if ma == END then 0
            else Lex(Key(have, a.end + 1, max), Key(want, b.end + 1, max))
  {
    hide Strtoul, Lex;
    var a, b := Strtoul(have, i, max), Strtoul(want, j, max);
    var r := if a.end == |have| then [] else Key(have, a.end + 1, max);
    var t := if b.end == |want| then [] else Key(want, b.end + 1, max);
    assert Key(have, i, max) == [a.value, Mark(have, a.end)] + r;
    assert Key(want, j, max) == [b.value, Mark(want, b.end)] + t;
    LexStep(a.value, Mark(have, a.end), r, b.value, Mark(want, b.end), t);
  }

  lemma LexStep(a: int, ma: int, r: seq<int>, b: int, mb: int, t: seq<int>)
    ensures Lex([a, ma] + r, [b, mb] + t) ==
            if a != b then (if b > a then 1 else -1)
            else if ma != mb then (if mb > ma then 1 else -1)
            else Lex(r, t)
    ensures Lex([], []) == 0
  {
    assert ([a, ma] + r)[1..] == [ma] + r && ([b, mb] + t)[1..] == [mb] + t;
    assert ([ma] + r)[1..] == r && ([mb] + t)[1..] == t;
  }

  method MeshPkgNewer(have: string, want: string, max: nat) returns (r: int)
    ensures r == Newer(have, want, max)
  {
    hide Strtoul, Key, Lex;
    if have == "" || want == "" {
      return 0;
    }
    var pa: nat, pb: nat := 0, 0;
    while pa < |have| || pb < |want|
      invariant pa <= |have| && pb <= |want|
      invariant Lex(Key(have, pa, max), Key(want, pb, max)) == Newer(have, want, max)
      decreases |have| - pa + |want| - pb
    {
      var a := Strtoul(have, pa, max);
      var b := Strtoul(want, pb, max);
      KeyStep(have, want, pa, pb, max);
      if a.value != b.value {
        return if b.value > a.value then 1 else -1;
      }
      if Mark(have, a.end) != Mark(want, b.end) {
        FirstDecides(want[b.end..], have[a.end..]);
        return if !StrLe(want[b.end..], have[a.end..]) then 1 else -1;
      }
      if a.end == |have| {
        return 0;
      }
      pa := a.end + 1;
      pb := b.end + 1;
    }
    AtTheEnd(have, want, max);
    return 0;
  }

  /** strcmp of two strings whose first characters differ, the end counting as least. */
  lemma FirstDecides(x: string, y: string)
    requires Mark(x, 0) != Mark(y, 0)
    ensures StrLe(x, y) <==> Mark(x, 0) <= Mark(y, 0)
  {
  }

  lemma AtTheEnd(have: string, want: string, max: nat)
    ensures Lex(Key(have, |have|, max), Key(want, |want|, max)) == 0
  {
    LexZero(Key(have, |have|, max), Key(want, |want|, max));
  }

  // ---------------------------------------------------------------- a total preorder

  lemma Antisymmetric(a: string, b: string, max: nat)
    ensures Newer(a, b, max) == -Newer(b, a, max)
  {
    if a != "" && b != "" {
      LexFlip(Key(a, 0, max), Key(b, 0, max));
    }
  }

  /** Between versions the order is transitive, also strictly; the middle one must not be empty. */
  lemma Transitive(a: string, b: string, c: string, max: nat)
    requires b != "" && Newer(a, b, max) >= 0 && Newer(b, c, max) >= 0
    ensures Newer(a, c, max) >= 0
    ensures a != "" && c != "" && (Newer(a, b, max) > 0 || Newer(b, c, max) > 0) ==> Newer(a, c, max) > 0
  {
    hide Key, Lex;
    if a != "" && c != "" {
      LexTrans(Key(a, 0, max), Key(b, 0, max), Key(c, 0, max));
    }
  }

  /** Two versions are equal exactly when they read as the same numbers and separators. */
  lemma EqualIff(a: string, b: string, max: nat)
    requires a != "" && b != ""
    ensures Newer(a, b, max) == 0 <==> Key(a, 0, max) == Key(b, 0, max)
  {
    LexZero(Key(a, 0, max), Key(b, 0, max));
  }

  /** An empty string is equal to every version, so that over all strings the order is not transitive. */
  lemma EmptyIsNoMiddle(max: nat)
    requires max >= 2
    ensures Newer("2", "", max) == 0 && Newer("", "1", max) == 0 && Newer("2", "1", max) == -1
  {
    assert DigitEnd("2", 0) == 1 && DigitEnd("1", 0) == 1;
    assert "2"[0..1] == "2" && "1"[0..1] == "1";
    assert Value("2") == 2 && Value("1") == 1;
    assert Strtoul("2", 0, max) == Number(2, 1);
    assert Strtoul("1", 0, max) == Number(1, 1);
  }

  // ---------------------------------------------------------------- dotted numbers

  function Digit(d: nat): (c: char)
    requires d < 10
    ensures IsDigit(c) && c as int - '0' as int == d
  {
    ('0' as int + d) as char
  }

  function Decimal(n: nat): (s: string)
    ensures s != ""
  {
    if n < 10 then [Digit(n)] else Decimal(n / 10) + [Digit(n % 10)]
  }

  function Dotted(nums: seq<nat>): (s: string)
    requires nums != []
    ensures s != ""
  {
    if |nums| == 1 then Decimal(nums[0]) else Decimal(nums[0]) + "." + Dotted(nums[1..])
  }

  lemma {:induction false} DecimalDigits(n: nat)
    ensures forall i :: 0 <= i < |Decimal(n)| ==> IsDigit(Decimal(n)[i])
    ensures Value(Decimal(n)) == n
  {
    if n >= 10 {
      DecimalDigits(n / 10);
      assert Decimal(n)[..|Decimal(n)| - 1] == Decimal(n / 10);
    }
  }

  lemma {:induction false} DigitEndIs(s: string, p: nat, e: nat)
    requires p <= e <= |s| && (forall i :: p <= i < e ==> IsDigit(s[i])) && (e < |s| ==> !IsDigit(s[e]))
    ensures DigitEnd(s, p) == e
    decreases e - p
  {
    if p < e {
      DigitEndIs(s, p + 1, e);
    }
  }

  /** strtoul reads a number back that ends where the digits end. */
  lemma StrtoulDecimal(s: string, p: nat, n: nat, max: nat)
    requires n <= max
    requires var e := p + |Decimal(n)|; e <= |s| && s[p..e] == Decimal(n) && (e < |s| ==> !IsDigit(s[e]))
    ensures Strtoul(s, p, max) == Number(n, p + |Decimal(n)|)
  {
    var e := p + |Decimal(n)|;
    DecimalDigits(n);
    assert forall i :: p <= i < e ==> s[i] == s[p..e][i - p];
    hide Decimal, Value;
    assert IsDigit(s[p]);
    assert SpaceEnd(s, p) == p;
    DigitEndIs(s, p, e);
  }

  lemma {:induction false} SpaceEndIs(s: string, p: nat, e: nat)
    requires p <= e <= |s| && (forall i :: p <= i < e ==> IsSpace(s[i])) && (e < |s| ==> !IsSpace(s[e]))
    ensures SpaceEnd(s, p) == e
    decreases e - p
  {
    if p < e {
      SpaceEndIs(s, p + 1, e);
    }
  }

  predicate Blank(c: char) {
    c in " \t\n\r" || c as int in {11, 12}
  }

  predicate Sign(c: char) {
    c == '+' || c == '-'
  }

  /** White space from p to q, a sign or none up to d, and all the digits there are up to e. */
  predicate Laid(s: string, p: nat, q: nat, d: nat, e: nat) {
    && p <= q <= d <= e <= |s| && (forall i :: p <= i < q ==> Blank(s[i])) && (q < |s| ==> !Blank(s[q]))
    && (if q < |s| && Sign(s[q]) then d == q + 1 else d == q)
    && (forall i :: d <= i < e ==> '0' <= s[i] <= '9') && (e < |s| ==> !('0' <= s[e] <= '9'))
  }

  /** The number, cut to the range, counted from its top after a minus; no number and no step without a digit
      (section 7.22.1.4 of ISO C). */
  lemma StrtoulReads(s: string, p: nat, q: nat, d: nat, e: nat, max: nat)
    requires Laid(s, p, q, d, e)
    ensures var n := Strtoul(s, p, max);
      if d == e then n == Number(0, p)
      else n.end == e && var v := Value(s[d..e]);
        n.value == if v > max then max else if s[q] == '-' && v != 0 then max - (v - 1) else v
  {
    hide Value;
    SpaceEndIs(s, p, q);
    DigitEndIs(s, d, e);
  }

  function DottedKey(nums: seq<nat>): seq<int>
    requires nums != []
  {
    if |nums| == 1 then [nums[0], END] else [nums[0], '.' as int] + DottedKey(nums[1..])
  }

  lemma KeyOnce(s: string, p: nat, max: nat)
    requires p <= |s|
    ensures var n := Strtoul(s, p, max);
            Key(s, p, max) == [n.value, Mark(s, n.end)] + if n.end == |s| then [] else Key(s, n.end + 1, max)
  {
    hide Strtoul;
  }

  lemma DottedKeyOnce(nums: seq<nat>)
    requires nums != []
    ensures DottedKey(nums) == [nums[0], if |nums| == 1 then END else '.' as int]
                               + if |nums| == 1 then [] else DottedKey(nums[1..])
    ensures !IsDigit('.')
  {
  }

  /** Where the first number of a dotted text ends, and what follows it. */
  lemma DottedParts(s: string, p: nat, nums: seq<nat>)
    requires nums != [] && p <= |s| && s[p..] == Dotted(nums)
    ensures var e := p + |Decimal(nums[0])|;
            && e <= |s| && s[p..e] == Decimal(nums[0])
            && (|nums| == 1 ==> e == |s|)
            && (|nums| > 1 ==> e < |s| && s[e] == '.' && s[e + 1..] == Dotted(nums[1..]))
  {
    hide Decimal;
    var d := Decimal(nums[0]);
    var t := s[p..];
    assert |t| == |s| - p;
    if |nums| == 1 {
      assert s[p..p + |d|] == t;
    } else {
      assert t == d + ("." + Dotted(nums[1..]));
      assert s[p..p + |d|] == t[..|d|];
      assert s[p + |d|] == t[|d|];
      assert s[p + |d| + 1..] == t[|d| + 1..];
    }
  }

  lemma {:induction false} KeyDotted(s: string, p: nat, nums: seq<nat>, max: nat)
    requires nums != [] && p <= |s| && s[p..] == Dotted(nums) && forall i :: 0 <= i < |nums| ==> nums[i] <= max
    ensures Key(s, p, max) == DottedKey(nums)
    decreases |nums|
  {
    hide Strtoul, Decimal, Key, Dotted, DottedKey, IsDigit;
    var e := p + |Decimal(nums[0])|;
    DottedKeyOnce(nums);
    DottedParts(s, p, nums);
    StrtoulDecimal(s, p, nums[0], max);
    KeyOnce(s, p, max);
    if |nums| > 1 {
      KeyDotted(s, e + 1, nums[1..], max);
    }
  }

  lemma {:induction false} DottedLex(x: seq<nat>, y: seq<nat>)
    requires x != [] && y != []
    ensures Lex(DottedKey(x), DottedKey(y)) == Lex(x, y)
    decreases |x|
  {
    var r := if |x| == 1 then [] else DottedKey(x[1..]);
    var t := if |y| == 1 then [] else DottedKey(y[1..]);
    var mx, my := if |x| == 1 then END else '.' as int, if |y| == 1 then END else '.' as int;
    assert DottedKey(x) == [x[0], mx] + r && DottedKey(y) == [y[0], my] + t;
    LexStep(x[0], mx, r, y[0], my, t);
    if |x| > 1 && |y| > 1 {
      DottedLex(x[1..], y[1..]);
    }
  }

  /** On dotted numbers that fit an unsigned long, the order is that of the lists of numbers. */
  lemma DottedOrder(x: seq<nat>, y: seq<nat>, max: nat)
    requires x != [] && y != []
    requires (forall i :: 0 <= i < |x| ==> x[i] <= max) && forall i :: 0 <= i < |y| ==> y[i] <= max
    ensures Newer(Dotted(x), Dotted(y), max) == Lex(x, y)
  {
    hide Key, Lex, Dotted, DottedKey;
    KeyDotted(Dotted(x), 0, x, max);
    KeyDotted(Dotted(y), 0, y, max);
    DottedLex(x, y);
  }
}
