/** Values and helpers shared by the SkillSwap model: how errors leave a
    service, the JavaScript string operations the handlers use (trim, filter,
    decimal `toString`, `split`), and the skip/take arithmetic of the paginated
    listings. */
module Common {

  datatype Option<+T> = None | Some(value: T)

  datatype Result<+T, +E> = Success(value: T) | Failure(error: E)

  // HTTP status codes the services throw.
  const BadRequest := 400
  const Unauthorized := 401
  const Forbidden := 403
  const NotFound := 404
  const Conflict := 409
  const InternalServerError := 500

  /** An error escaping a service: an `HttpException` it threw itself, or an
      error raised beneath it (a database-client error, or a `TypeError` at run
      time) that carries a message but no HTTP status. */
  datatype Failure =
    | HttpFailure(status: int, message: string)
    | PlainError(message: string)

  /** V8's message for reading a property of `null`, as in `user.status`
      when no user was found. */
  function NullRead(property: string): string {
    "Cannot read properties of null (reading '" + property + "')"
  }

  /** JavaScript's `a || b` on strings. */
  function OrElse(a: string, b: string): string {
    if a != "" then a else b
  }

  /** The catch block the services share:
      `throw new HttpException(error.message || fallback, error.status || fallbackStatus)`. */
  function Rethrow(e: Failure, fallback: string, fallbackStatus: int): (r: Failure)
    ensures r.HttpFailure?
    ensures r.message == (if e.message != "" then e.message else fallback)
    ensures r.status == (if e.HttpFailure? && e.status != 0 then e.status else fallbackStatus)
  {
    match e
    case HttpFailure(s, m) => HttpFailure(if s != 0 then s else fallbackStatus, OrElse(m, fallback))
    case PlainError(m) => HttpFailure(fallbackStatus, OrElse(m, fallback))
  }

  /** A second catch around the first leaves its error untouched: what one
      `Rethrow` produced has a message and a status already. */
  lemma RethrowTwice(e: Failure, m1: string, s1: int, m2: string, s2: int)
    requires m1 != "" && s1 != 0
    ensures Rethrow(Rethrow(e, m1, s1), m2, s2) == Rethrow(e, m1, s1)
  {
  }

  // ---------------------------------------------------------------- characters

  /** The characters JavaScript's `\s` and `String.prototype.trim` treat as
      white space (WhiteSpace and LineTerminator of ECMAScript). */
  predicate IsJsWhitespace(c: char) {
    c == '\t' || c == '\n' || c == '\U{B}' || c == '\U{C}' || c == '\r' || c == ' '
    || c == '\U{A0}' || c == '\U{1680}' || ('\U{2000}' <= c <= '\U{200A}')
    || c == '\U{2028}' || c == '\U{2029}' || c == '\U{202F}' || c == '\U{205F}'
    || c == '\U{3000}' || c == '\U{FEFF}'
  }

  predicate IsAsciiDigit(c: char) { '0' <= c <= '9' }
  predicate IsAsciiUpper(c: char) { 'A' <= c <= 'Z' }
  predicate IsAsciiLower(c: char) { 'a' <= c <= 'z' }

  predicate AllDigits(s: string) {
    forall k :: 0 <= k < |s| ==> IsAsciiDigit(s[k])
  }

  predicate NoDuplicates<T(==)>(xs: seq<T>) {
    forall i, j :: 0 <= i < j < |xs| ==> xs[i] != xs[j]
  }

  // ------------------------------------------------------------------- trimming

  /** How much leading white space `Trim` drops: the index of the first
      character that is not white space. */
  function TrimOffset(s: string): (i: nat)
    ensures i <= |s|
    ensures forall k :: 0 <= k < i ==> IsJsWhitespace(s[k])
    ensures i < |s| ==> !IsJsWhitespace(s[i])
  {
    if s != "" && IsJsWhitespace(s[0]) then
      var i := 1 + TrimOffset(s[1..]);
      assert forall k :: 1 <= k < i ==> s[k] == s[1..][k - 1];
      i
    else 0
  }

  /** Where `Trim` stops: the end of the last character at or after `lo`
      that is not white space, or `lo` when there is none. */
  function TrimEndIndex(s: string, lo: nat): (j: nat)
    requires lo <= |s|
    ensures lo <= j <= |s|
    ensures forall k :: j <= k < |s| ==> IsJsWhitespace(s[k])
    ensures lo < j ==> !IsJsWhitespace(s[j - 1])
    decreases |s|
  {
    if lo < |s| && IsJsWhitespace(s[|s| - 1]) then TrimEndIndex(s[..|s| - 1], lo) else |s|
  }

  /** `s.trim()`: the text of `s` between its leading and trailing white space. */
  function Trim(s: string): (r: string)
    ensures TrimOffset(s) + |r| <= |s|
    ensures r == s[TrimOffset(s)..TrimOffset(s) + |r|]
    ensures forall k :: 0 <= k < TrimOffset(s) ==> IsJsWhitespace(s[k])
    ensures forall k :: TrimOffset(s) + |r| <= k < |s| ==> IsJsWhitespace(s[k])
    ensures r == "" || (!IsJsWhitespace(r[0]) && !IsJsWhitespace(r[|r| - 1]))
  {
    s[TrimOffset(s)..TrimEndIndex(s, TrimOffset(s))]
  }

  /** The trim is empty exactly when the input is all white space (or empty). */
  lemma TrimEmptyIff(s: string)
    ensures Trim(s) == "" <==> forall k :: 0 <= k < |s| ==> IsJsWhitespace(s[k])
  {
    if Trim(s) != "" {
      assert s[TrimOffset(s)] == Trim(s)[0];
    }
  }

  /** Trimming twice is trimming once. */
  lemma TrimIdempotent(s: string)
    ensures Trim(Trim(s)) == Trim(s)
  {
    var r := Trim(s);
    if r != "" {
      assert TrimOffset(r) == 0;
      assert TrimEndIndex(r, 0) == |r|;
    }
  }

  // ---------------------------------------------------------------- list edits

  /** `xs.filter((y) => y !== x)`. */
  function RemoveAll<T(==)>(xs: seq<T>, x: T): (r: seq<T>)
    ensures x !in r
    ensures |r| <= |xs|
    ensures multiset(r) == multiset(xs)[x := 0]
  {
    if xs == [] then []
    else
      assert xs == [xs[0]] + xs[1..];
      (if xs[0] == x then [] else [xs[0]]) + RemoveAll(xs[1..], x)
  }

  /** Filtering keeps the order of what it keeps: it distributes over `+`. */
  lemma {:induction false} RemoveAllAppend<T>(a: seq<T>, b: seq<T>, x: T)
    ensures RemoveAll(a + b, x) == RemoveAll(a, x) + RemoveAll(b, x)
  {
    if a != [] {
      assert (a + b)[1..] == a[1..] + b;
      RemoveAllAppend(a[1..], b, x);
    } else {
      assert a + b == b;
    }
  }

  /** Every value other than the removed one is in the result exactly when
      it is in the input. */
  lemma RemoveAllMembers<T>(xs: seq<T>, x: T)
    ensures forall y :: y != x ==> (y in RemoveAll(xs, x) <==> y in xs)
  {
    var r := RemoveAll(xs, x);
    forall y | y != x ensures y in r <==> y in xs {
      assert y in r <==> multiset(r)[y] > 0;
      assert y in xs <==> multiset(xs)[y] > 0;
    }
  }

  /** Removing an absent value changes nothing. */
  lemma {:induction false} RemoveAllAbsent<T>(xs: seq<T>, x: T)
    requires x !in xs
    ensures RemoveAll(xs, x) == xs
  {
    if xs != [] {
      RemoveAllAbsent(xs[1..], x);
      assert xs == [xs[0]] + xs[1..];
    }
  }

  /** Removing from a list without duplicates keeps it without duplicates. */
  lemma {:induction false} RemoveAllNoDuplicates<T>(xs: seq<T>, x: T)
    requires NoDuplicates(xs)
    ensures NoDuplicates(RemoveAll(xs, x))
  {
    if xs != [] {
      RemoveAllNoDuplicates(xs[1..], x);
      var rest := RemoveAll(xs[1..], x);
      RemoveAllMembers(xs[1..], x);
      assert xs[0] !in xs[1..] by {
        forall k | 0 <= k < |xs| - 1 ensures xs[1..][k] != xs[0] {
          assert xs[1..][k] == xs[k + 1];
        }
      }
    }
  }

  /** The index of the first `x` in `xs`, if any. */
  function IndexOf<T(==)>(xs: seq<T>, x: T): (r: Option<nat>)
    ensures r.None? <==> x !in xs
    ensures r.Some? ==> r.value < |xs| && xs[r.value] == x
    ensures r.Some? ==> forall k :: 0 <= k < r.value ==> xs[k] != x
  {
    if xs == [] then None
    else if xs[0] == x then Some(0)
    else match IndexOf(xs[1..], x)
      case None => None
      case Some(i) => Some(i + 1)
  }

  /** In a list without duplicates, the position of an element is its index. */
  lemma IndexOfUnique<T>(xs: seq<T>, k: nat)
    requires NoDuplicates(xs) && k < |xs|
    ensures IndexOf(xs, xs[k]) == Some(k)
  {
  }

  /** Appending never moves an element that is already there. */
  lemma IndexOfExtend<T>(xs: seq<T>, ys: seq<T>, x: T)
    requires x in xs
    ensures IndexOf(xs + ys, x) == IndexOf(xs, x)
  {
    var i := IndexOf(xs, x).value;
    assert (xs + ys)[i] == x;
  }

  /** The index of an element behind a different first element. */
  lemma IndexOfCons<T>(y: T, xs: seq<T>, x: T)
    requires x != y && x in xs
    ensures IndexOf([y] + xs, x) == Some(IndexOf(xs, x).value + 1)
  {
    assert ([y] + xs)[1..] == xs;
  }

  /** The newest-first list of row ids below `n` whose row satisfies `keep`: the
      order `orderBy: { createdAt: 'desc' }` gives rows inserted in id order. */
  function NewestFirst(n: nat, keep: nat -> bool): (r: seq<nat>)
    ensures forall k :: 0 <= k < |r| ==> r[k] < n && keep(r[k])
    ensures forall i :: 0 <= i < n && keep(i) ==> i in r
    ensures forall j, k :: 0 <= j < k < |r| ==> r[j] > r[k]
  {
    if n == 0 then []
    else if keep(n - 1) then [n - 1] + NewestFirst(n - 1, keep)
    else NewestFirst(n - 1, keep)
  }

  /** Two filters that agree on every id below `n` select the same list. */
  lemma {:induction false} NewestFirstSameFilter(n: nat, keep1: nat -> bool, keep2: nat -> bool)
    requires forall i :: 0 <= i < n ==> keep1(i) == keep2(i)
    ensures NewestFirst(n, keep1) == NewestFirst(n, keep2)
  {
    if n > 0 {
      NewestFirstSameFilter(n - 1, keep1, keep2);
    }
  }

  // ----------------------------------------------------------- decimal strings

  function DigitChar(d: nat): (c: char)
    requires d < 10
    ensures IsAsciiDigit(c)
  {
    ('0' as int + d) as char
  }

  function DigitValue(c: char): (d: nat)
    requires IsAsciiDigit(c)
    ensures d < 10 && DigitChar(d) == c
  {
    c as int - '0' as int
  }

  /** `n.toString()` for a non-negative integer: its decimal digits, with no
      leading zero. */
  function NatToString(n: nat): (r: string)
    ensures r != "" && AllDigits(r)
    ensures r[0] == '0' ==> n == 0
  {
    if n < 10 then [DigitChar(n)] else NatToString(n / 10) + [DigitChar(n % 10)]
  }

  /** The value of a string of decimal digits. */
  function ParseDecimal(s: string): nat
    requires AllDigits(s)
  {
    if s == "" then 0 else ParseDecimal(s[..|s| - 1]) * 10 + DigitValue(s[|s| - 1])
  }

  /** Parsing what `toString` printed gives the number back. */
  lemma {:induction false} ParseNatToString(n: nat)
    ensures ParseDecimal(NatToString(n)) == n
  {
    var s := NatToString(n);
    if n >= 10 {
      ParseNatToString(n / 10);
      assert s[..|s| - 1] == NatToString(n / 10);
    }
  }

  /** Different numbers print differently. */
  lemma NatToStringInjective(a: nat, b: nat)
    requires NatToString(a) == NatToString(b)
    ensures a == b
  {
    ParseNatToString(a);
    ParseNatToString(b);
  }

  /** JavaScript's `Number.prototype.toString()` on an integer. */
  function IntToString(i: int): (r: string)
    ensures i >= 0 ==> r == NatToString(i)
    ensures r != "" && (r[0] == '-' <==> i < 0)
  {
    if i < 0 then "-" + NatToString(-i) else NatToString(i)
  }

  /** The value of `c` as a digit of base 2, 8, 10 or 16, either case for
      the letters, if it is one. */
  function RadixDigit(c: char, radix: nat): (r: Option<nat>)
    ensures r.Some? ==> r.value < radix
    ensures radix == 10 ==> (r.Some? <==> IsAsciiDigit(c))
  {
    var d: int :=
      if '0' <= c <= '9' then c as int - '0' as int
      else if 'a' <= c <= 'f' then c as int - 'a' as int + 10
      else if 'A' <= c <= 'F' then c as int - 'A' as int + 10
      else radix;
    if 0 <= d < radix then Some(d) else None
  }

  predicate AllRadixDigits(s: string, radix: nat) {
    forall k :: 0 <= k < |s| ==> RadixDigit(s[k], radix).Some?
  }

  /** The value of a string of digits in the given base. */
  function ParseRadix(s: string, radix: nat): nat
    requires AllRadixDigits(s, radix)
  {
    if s == "" then 0 else ParseRadix(s[..|s| - 1], radix) * radix + RadixDigit(s[|s| - 1], radix).value
  }

  /** The base a `0b`, `0o` or `0x` prefix (either case) selects. */
  function PrefixRadix(t: string): Option<nat> {
    if |t| >= 2 && t[0] == '0' then
      if t[1] == 'b' || t[1] == 'B' then Some(2)
      else if t[1] == 'o' || t[1] == 'O' then Some(8)
      else if t[1] == 'x' || t[1] == 'X' then Some(16)
      else None
    else None
  }

  /** A decimal integer with an optional sign, as StringToBigInt reads it. */
  function SignedDecimal(t: string): Option<int>
    requires t != ""
  {
    var digits := if t[0] == '-' || t[0] == '+' then t[1..] else t;
    if digits != "" && AllDigits(digits) then
      Some(if t[0] == '-' then -(ParseDecimal(digits) as int) else ParseDecimal(digits))
    else None
  }

  /** StringToBigInt on text without surrounding white space: empty text is
      0; otherwise a `0b`, `0o` or `0x` literal without a sign, or a decimal
      integer with an optional sign. */
  function IntegerLiteral(t: string): Option<int> {
    if t == "" then Some(0)
    else match PrefixRadix(t)
      case Some(radix) =>
        if |t| > 2 && AllRadixDigits(t[2..], radix) then Some(ParseRadix(t[2..], radix)) else None
      case None => SignedDecimal(t)
  }

  /** `BigInt(s)` on a string (StringToBigInt, section 7.1.14 of ECMA-262):
      surrounding white space is ignored, so blank text is `0n`; `None` is
      the `SyntaxError`. */
  function BigIntOf(s: string): (r: Option<int>)
    ensures (forall k :: 0 <= k < |s| ==> IsJsWhitespace(s[k])) ==> r == Some(0)
  {
    TrimEmptyIff(s);
    IntegerLiteral(Trim(s))
  }

  /** Only the text inside the white space matters. */
  lemma BigIntOfIgnoresWhiteSpace(s: string)
    ensures BigIntOf(s) == BigIntOf(Trim(s))
  {
    TrimIdempotent(s);
  }

  /** White space around a text that neither starts nor ends with white
      space is what `trim` removes. */
  lemma TrimPadded(pre: string, t: string, post: string)
    requires forall k :: 0 <= k < |pre| ==> IsJsWhitespace(pre[k])
    requires forall k :: 0 <= k < |post| ==> IsJsWhitespace(post[k])
    requires t == "" || (!IsJsWhitespace(t[0]) && !IsJsWhitespace(t[|t| - 1]))
    ensures Trim(pre + t + post) == t
  {
    var s := pre + t + post;
    var i := TrimOffset(s);
    if t == "" {
      TrimEmptyIff(s);
    } else {
      assert s[|pre|] == t[0];
      assert i == |pre|;
      var j := TrimEndIndex(s, i);
      assert s[|pre| + |t| - 1] == t[|t| - 1];
      assert j == |pre| + |t|;
      assert s[|pre|..|pre| + |t|] == t;
    }
  }

  /** An integer's `toString()` is an integer literal of the same value. */
  lemma IntegerLiteralOfIntToString(i: int)
    ensures IntegerLiteral(IntToString(i)) == Some(i)
  {
    var t := IntToString(i);
    var n: nat := if i < 0 then -i else i;
    ParseNatToString(n);
    if i < 0 {
      assert t[1..] == NatToString(n);
      assert SignedDecimal(t) == Some(-(n as int));
    } else {
      if t[0] == '0' {
        assert n == 0 && t == "0";
      }
      assert SignedDecimal(t) == Some(n);
    }
  }

  /** `BigInt` reads back every integer's `toString()`, whatever white space
      surrounds it. */
  lemma {:induction false} BigIntOfPadded(pre: string, i: int, post: string)
    requires forall k :: 0 <= k < |pre| ==> IsJsWhitespace(pre[k])
    requires forall k :: 0 <= k < |post| ==> IsJsWhitespace(post[k])
    ensures BigIntOf(pre + IntToString(i) + post) == Some(i)
  {
    var t := IntToString(i);
    var digits := NatToString(if i < 0 then -i else i);
    assert t[|t| - 1] == digits[|digits| - 1];
    TrimPadded(pre, t, post);
    IntegerLiteralOfIntToString(i);
  }

  /** Decimal ids, as the server prints them, read back unchanged. */
  lemma BigIntOfNatToString(n: nat)
    ensures BigIntOf(NatToString(n)) == Some(n)
  {
    var s := NatToString(n);
    assert IntToString(n) == s;
    assert "" + s + "" == s;
    BigIntOfPadded("", n, "");
  }

  /** Example: an id claim padded with a space, and a negative one, are
      integers to `BigInt`. */
  lemma PaddedAndSignedIds()
    ensures BigIntOf(" 7") == Some(7)
    ensures BigIntOf("-1") == Some(-1)
  {
    BigIntOfPadded(" ", 7, "");
    assert " " + IntToString(7) + "" == " 7";
    BigIntOfPadded("", -1, "");
    assert "" + IntToString(-1) + "" == "-1";
  }

  /** Example: a hexadecimal literal is read in base 16. */
  lemma HexId()
    ensures BigIntOf("0x1F") == Some(31)
  {
    var hex := "0x1F";
    TrimPadded("", hex, "");
    assert "" + hex + "" == hex;
    assert PrefixRadix(hex) == Some(16) && hex[2..] == "1F";
    HexDigits();
  }

  lemma HexDigits()
    ensures AllRadixDigits("1F", 16) && ParseRadix("1F", 16) == 31
  {
    assert RadixDigit('1', 16) == Some(1) && RadixDigit('F', 16) == Some(15);
    assert "1F"[..1] == "1" && "1"[..0] == "";
  }

  /** Example: trailing letters, and a sign before a prefix, are syntax
      errors. */
  lemma RejectedIds()
    ensures BigIntOf("7x").None?
    ensures BigIntOf("-0x1").None?
  {
    var bad := "7x";
    TrimPadded("", bad, "");
    assert "" + bad + "" == bad;
    assert !IsAsciiDigit(bad[1]);
    var neg := "-0x1";
    TrimPadded("", neg, "");
    assert "" + neg + "" == neg;
    assert neg[1..][1] == 'x';
  }

  function CannotConvertToBigInt(s: string): string {
    "Cannot convert " + s + " to a BigInt"
  }

  /** What a page's `fetch` call ends in: the promise rejects (a network
      error), or a response arrives with its `ok` flag and the `message` and
      `token` fields of its JSON body (`None` where the body has no such
      field). */
  datatype Response =
    | NetworkError
    | Response(ok: bool, message: Option<string>, token: Option<string>)

  /** `data.message || fallback` on a response body. */
  function MessageOr(message: Option<string>, fallback: string): string {
    match message
    case Some(m) => OrElse(m, fallback)
    case None => fallback
  }

  function Pow10(k: nat): (p: nat)
    ensures p >= 1
  {
    if k == 0 then 1 else 10 * Pow10(k - 1)
  }

  /** A number with k + 1 decimal digits prints as k + 1 characters. */
  lemma {:induction false} NatToStringLength(n: nat, k: nat)
    requires Pow10(k) <= n < Pow10(k + 1)
    ensures |NatToString(n)| == k + 1
  {
    if k > 0 {
      NatToStringLength(n / 10, k - 1);
    }
  }

  // ---------------------------------------------------------------- pagination

  function Min(a: int, b: int): int { if a <= b then a else b }

  /** Prisma's `skip`/`take` on an already ordered list. */
  function Paginate<T>(xs: seq<T>, skip: nat, take: nat): (r: seq<T>)
    ensures |r| == if skip >= |xs| then 0 else Min(take, |xs| - skip)
    ensures forall k :: 0 <= k < |r| ==> r[k] == xs[skip + k]
  {
    if skip >= |xs| then [] else xs[skip..skip + Min(take, |xs| - skip)]
  }

  /** Position p of a list falls on the page that starts at
      (p / size) * size, at offset p % size. */
  lemma PageSlot(p: nat, size: nat)
    requires size >= 1
    ensures (p / size) * size <= p
    ensures p - (p / size) * size == p % size < size
  {
  }

  /** Item p of the list is on the page that starts at skip <= p and is
      more than p - skip long, at offset p - skip. */
  lemma PaginateAt<T>(xs: seq<T>, skip: nat, take: nat, p: nat)
    requires skip <= p < |xs| && p - skip < take
    ensures p - skip < |Paginate(xs, skip, take)|
    ensures Paginate(xs, skip, take)[p - skip] == xs[p]
  {
  }

  /** A page holds only items of the list. */
  lemma PaginateFrom<T>(xs: seq<T>, skip: nat, take: nat)
    ensures forall k :: 0 <= k < |Paginate(xs, skip, take)| ==> Paginate(xs, skip, take)[k] in xs
  {
    var r := Paginate(xs, skip, take);
    forall k | 0 <= k < |r| ensures r[k] in xs {
      assert r[k] == xs[skip + k];
    }
  }

  /** A page of a strictly decreasing list is strictly decreasing. */
  lemma PaginateDecreasing(xs: seq<nat>, skip: nat, take: nat)
    requires forall j, k :: 0 <= j < k < |xs| ==> xs[j] > xs[k]
    ensures var r := Paginate(xs, skip, take);
      forall j, k :: 0 <= j < k < |r| ==> r[j] > r[k]
  {
    var r := Paginate(xs, skip, take);
    forall j, k | 0 <= j < k < |r| ensures r[j] > r[k] {
      assert r[j] == xs[skip + j] && r[k] == xs[skip + k];
    }
  }

  /** `Math.ceil(a / b)`: the least q with q * b >= a. */
  function CeilDiv(a: nat, b: nat): (q: nat)
    requires b > 0
    ensures q * b >= a
    ensures q == 0 || (q - 1) * b < a
  {
    if a == 0 then 0 else if a <= b then 1 else 1 + CeilDiv(a - b, b)
  }

  lemma MulMono(x: nat, y: nat, b: nat)
    requires x <= y
    ensures x * b <= y * b
  {
  }

  /** `totalPages` is exactly the number of non-empty pages: page p (counted
      from 1) of a list of n items cut into pages of `size` has an item iff
      p <= ceil(n / size). */
  lemma PageNonEmptyIff<T>(xs: seq<T>, page: nat, size: nat)
    requires page >= 1 && size >= 1
    ensures Paginate(xs, (page - 1) * size, size) != [] <==> page <= CeilDiv(|xs|, size)
  {
    var q := CeilDiv(|xs|, size);
    if page <= q {
      MulMono(page - 1, q - 1, size);
    } else {
      MulMono(q, page - 1, size);
    }
  }
}
