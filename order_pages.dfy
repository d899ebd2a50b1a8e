/**
 * The page arithmetic of getAllOrdersForAUser: the `page` and `pageSize`
 * query parameters read with JavaScript's parseInt and `||` defaults, the
 * offset handed to the query, and the page count of the reply.
 */
module OrderPages {
  import opened Store

  /** The white space parseInt skips before the number (the ASCII ones, no-break space and the byte-order mark). */
  predicate IsSpace(c: char) {
    c == ' ' || c == '\t' || c == '\n' || c == '\r' || c == '\U{B}' || c == '\U{C}' || c == '\U{A0}' || c == '\U{FEFF}'
  }

  /** The string with its leading white space removed. */
  function TrimStart(s: string): (r: string)
    ensures |r| <= |s| && r == s[|s| - |r|..]
    ensures |r| > 0 ==> !IsSpace(r[0])
    ensures forall i :: 0 <= i < |s| - |r| ==> IsSpace(s[i])
  {
    if |s| > 0 && IsSpace(s[0]) then TrimStart(s[1..]) else s
  }

  /** The value of a digit in the radix (10 or 16), if it is one. */
  function DigitValue(c: char, radix: int): (d: Option<int>)
    ensures d.Some? ==> 0 <= d.value < radix
  {
    var v :=
      if '0' <= c <= '9' then c as int - '0' as int
      else if 'a' <= c <= 'z' then c as int - 'a' as int + 10
      else if 'A' <= c <= 'Z' then c as int - 'A' as int + 10
      else radix;
    if v < radix then Some(v) else None
  }

  /** How many characters at the start of `s` are digits of the radix. */
  function DigitRun(s: string, radix: int): (n: nat)
    ensures n <= |s|
    ensures forall i :: 0 <= i < n ==> DigitValue(s[i], radix).Some?
    ensures n < |s| ==> DigitValue(s[n], radix).None?
  {
    if |s| == 0 || DigitValue(s[0], radix).None? then 0 else 1 + DigitRun(s[1..], radix)
  }

  /** The number a run of digits of the radix stands for, most significant first. */
  function ValueOf(digits: string, radix: int): (v: nat)
    requires forall i :: 0 <= i < |digits| ==> DigitValue(digits[i], radix).Some?
  {
    if |digits| == 0 then 0
    else
      var high := ValueOf(digits[..|digits| - 1], radix);
      MulSign(high, radix);
      high * radix + DigitValue(digits[|digits| - 1], radix).value
  }

  /**
   * The unsigned part of parseInt: base 16 after a "0x" or "0X" prefix and
   * base 10 otherwise, the longest run of digits, None (NaN) when there is
   * no digit.
   */
  function ParseMagnitude(u: string): (r: Option<int>)
    ensures r.Some? ==> r.value >= 0
    ensures |u| == 0 || DigitValue(u[0], 10).None? ==> r.None?
  {
    if |u| >= 2 && u[0] == '0' && (u[1] == 'x' || u[1] == 'X') then ReadDigits(u[2..], 16) else ReadDigits(u, 10)
  }

  /** The longest run of digits of the radix at the start of `body`, None when there is none. */
  function ReadDigits(body: string, radix: int): Option<int> {
    var n := DigitRun(body, radix);
    if n == 0 then None else Some(ValueOf(body[..n], radix))
  }

  /**
   * parseInt(s) with no radix argument, None standing for NaN: skip white
   * space, take one sign, then read the magnitude.
   */
  function ParseInt(s: string): (r: Option<int>)
    ensures |TrimStart(s)| == 0 ==> r.None?
    ensures r.Some? && r.value < 0 ==> TrimStart(s)[0] == '-'
  {
    ParseSigned(TrimStart(s))
  }

  /** parseInt after the white space: one optional sign, then the magnitude. */
  function ParseSigned(t: string): Option<int> {
    if |t| > 0 && t[0] == '-' then
      match ParseMagnitude(t[1..])
      case None => None
      case Some(m) => Some(-m)
    else if |t| > 0 && t[0] == '+' then ParseMagnitude(t[1..])
    else ParseMagnitude(t)
  }

  /** `parseInt(param) || fallback`: NaN and 0 (also -0) are falsy; an absent parameter parses as NaN. */
  function OrDefault(param: Option<string>, fallback: int): (r: int)
    ensures r == fallback || (param.Some? && ParseInt(param.value) == Some(r) && r != 0)
    ensures param.Some? && ParseInt(param.value).Some? && ParseInt(param.value).value != 0 ==>
              r == ParseInt(param.value).value
    ensures param.None? || ParseInt(param.value).None? || ParseInt(param.value) == Some(0) ==> r == fallback
  {
    if param.None? then fallback
    else match ParseInt(param.value)
      case None => fallback
      case Some(v) => if v == 0 then fallback else v
  }

  /** The decimal digits of a natural number, most significant first. */
  function Digits(n: nat): (s: string)
    ensures |s| > 0
  {
    if n < 10 then ['0' + n as char] else Digits(n / 10) + ['0' + (n % 10) as char]
  }

  /** The way a number is written in a query string: decimal digits, with a '-' when negative. */
  function Decimal(n: int): string {
    if n < 0 then "-" + Digits(-n) else Digits(n)
  }

  lemma {:induction false} DigitsRead(n: nat)
    ensures forall i :: 0 <= i < |Digits(n)| ==> '0' <= Digits(n)[i] <= '9'
    ensures DigitRun(Digits(n), 10) == |Digits(n)|
    ensures ValueOf(Digits(n), 10) == n
  {
    var s := Digits(n);
    if n >= 10 {
      DigitsRead(n / 10);
      var p := Digits(n / 10);
      assert s == p + ['0' + (n % 10) as char];
      assert s[..|s| - 1] == p;
    }
    assert forall i :: 0 <= i < |s| ==> DigitValue(s[i], 10).Some?;
    DigitRunAll(s, 10);
    assert s[..|s|] == s;
  }

  /** A string made only of digits is read to its end. */
  lemma {:induction false} DigitRunAll(s: string, radix: int)
    requires forall i :: 0 <= i < |s| ==> DigitValue(s[i], radix).Some?
    ensures DigitRun(s, radix) == |s|
  {
    if |s| > 0 {
      DigitRunAll(s[1..], radix);
    }
  }

  /** A string that does not start with a decimal digit or an 'x': where the digits of a number stop. */
  predicate StopsNumber(rest: string) {
    |rest| == 0 || (DigitValue(rest[0], 10).None? && rest[0] != 'x' && rest[0] != 'X')
  }

  lemma MagnitudeOfDigits(n: nat, rest: string)
    requires StopsNumber(rest)
    ensures ParseMagnitude(Digits(n) + rest) == Some(n)
  {
    DigitsRead(n);
    var d := Digits(n);
    var u := d + rest;
    if |d| >= 2 {
      assert u[1] == d[1];
    } else {
      assert |rest| > 0 ==> u[1] == rest[0];
    }
    assert !(|u| >= 2 && u[0] == '0' && (u[1] == 'x' || u[1] == 'X'));
    DigitRunAll(d, 10);
    DigitRunStops(d, rest, 10);
    assert u[..|d|] == d;
  }

  lemma {:induction false} DigitRunStops(d: string, rest: string, radix: int)
    requires DigitRun(d, radix) == |d|
    requires |rest| == 0 || DigitValue(rest[0], radix).None?
    ensures DigitRun(d + rest, radix) == |d|
  {
    if |d| > 0 {
      assert (d + rest)[1..] == d[1..] + rest;
      DigitRunStops(d[1..], rest, radix);
    } else {
      assert d + rest == rest;
    }
  }

  /**
   * parseInt reads back every integer written in decimal, and stops where
   * its digits stop: "12abc" and "12.5" read as 12.
   */
  lemma ParseIntDecimal(n: int, rest: string)
    requires StopsNumber(rest)
    ensures ParseInt(Decimal(n) + rest) == Some(n)
  {
    if n < 0 {
      assert Decimal(n) == "-" + Digits(-n);
      assert ("-" + Digits(-n)) + rest == "-" + (Digits(-n) + rest);
      DigitsThenRest(-n, rest);
      ParseIntSigned(Digits(-n) + rest);
    } else {
      DigitsThenRest(n, rest);
      ParseIntUnsigned(Digits(n) + rest);
    }
  }

  /** The digits of a number followed by a stop start with a digit and read back as the number. */
  lemma DigitsThenRest(m: nat, rest: string)
    requires StopsNumber(rest)
    ensures var u := Digits(m) + rest; '0' <= u[0] <= '9' && ParseMagnitude(u) == Some(m)
  {
    MagnitudeOfDigits(m, rest);
    DigitsRead(m);
    assert (Digits(m) + rest)[0] == Digits(m)[0];
  }

  /** A string that starts with a digit is read as its magnitude. */
  lemma ParseIntUnsigned(u: string)
    requires |u| > 0 && '0' <= u[0] <= '9'
    ensures ParseInt(u) == ParseMagnitude(u)
  {
    assert !IsSpace(u[0]);
    assert TrimStart(u) == u;
  }

  /** A string that starts with '-' and then a digit is read as its negated magnitude. */
  lemma ParseIntSigned(u: string)
    requires |u| > 0 && '0' <= u[0] <= '9'
    requires ParseMagnitude(u).Some?
    ensures ParseInt("-" + u) == Some(-ParseMagnitude(u).value)
  {
    var s := "-" + u;
    assert s[0] == '-' && !IsSpace(s[0]);
    assert TrimStart(s) == s;
    assert s[1..] == u;
  }

  /**
   * What a query parameter yields: the fallback when it is absent, and for a
   * parameter written as a decimal integer that integer, unless it is 0.
   */
  lemma ParameterDefaults(n: int, fallback: int)
    ensures OrDefault(None, fallback) == fallback
    ensures OrDefault(Some(Decimal(n)), fallback) == if n == 0 then fallback else n
  {
    assert Decimal(n) + [] == Decimal(n);
    ParseIntDecimal(n, []);
  }

  /** parseInt skips a leading white-space character: " 7" reads as "7". */
  lemma ParseIntSkipsSpace(c: char, s: string)
    requires IsSpace(c)
    ensures ParseInt([c] + s) == ParseInt(s)
  {
    assert ([c] + s)[1..] == s;
    assert TrimStart([c] + s) == TrimStart(s);
  }

  /** parseInt takes a plus sign before the digits: "+7" reads as 7. */
  lemma ParseIntSkipsPlus(u: string)
    requires |u| > 0 && '0' <= u[0] <= '9'
    ensures ParseInt("+" + u) == ParseMagnitude(u)
  {
    var s := "+" + u;
    assert s[0] == '+' && !IsSpace(s[0]);
    assert TrimStart(s) == s;
    assert s[1..] == u;
  }

  /** After "0x" parseInt reads base 16: "0x10" reads as 16. */
  lemma ParseIntHex(d: string)
    requires |d| > 0 && DigitRun(d, 16) == |d|
    ensures ParseInt("0x" + d) == Some(ValueOf(d, 16))
  {
    var s := "0x" + d;
    assert s[0] == '0' && !IsSpace(s[0]);
    assert TrimStart(s) == s;
    assert ParseMagnitude(s) == Some(ValueOf(d, 16)) by {
      assert |s| >= 2 && s[1] == 'x';
      assert s[2..] == d && d[..|d|] == d;
    }
    assert ParseSigned(s) == ParseMagnitude(s);
  }

  /** A string that starts with no digit, sign or white space is NaN: "abc" falls back to the default. */
  lemma ParseIntNoDigit(u: string, fallback: int)
    requires |u| > 0 && !IsSpace(u[0]) && u[0] != '+' && u[0] != '-' && DigitValue(u[0], 10).None?
    ensures ParseInt(u).None? && OrDefault(Some(u), fallback) == fallback
  {
    assert TrimStart(u) == u;
  }

  /** "-0" parses to 0 (JavaScript's -0), which is falsy, so the default applies. */
  lemma NegativeZeroFallsBack(u: string, fallback: int)
    requires |u| > 0 && '0' <= u[0] <= '9' && ParseMagnitude(u) == Some(0)
    ensures OrDefault(Some("-" + u), fallback) == fallback
  {
    ParseIntSigned(u);
  }

  /** `Math.ceil(count / size)` for a positive size. */
  function CeilDiv(count: nat, size: int): (r: nat)
    requires size > 0
    ensures (r - 1) * size < count <= r * size
  {
    var q := count / size;
    assert q * size + count % size == count;
    if count % size == 0 then q else q + 1
  }

  datatype Pagination = Pagination(page: int, pageSize: int, totalProducts: nat, totalPages: nat)

  /** The replies of getAllOrdersForAUser. */
  datatype OrdersReply<T> =
    | OrdersPage(orders: seq<T>, pagination: Pagination)
    | NoOrdersFound
    | QueryFailed
  {
    function Status(): int {
      match this
      case OrdersPage(_, _) => 200
      case NoOrdersFound => 400
      case QueryFailed => 500
    }
  }

  function Min(a: int, b: int): int {
    if a <= b then a else b
  }

  /** The rows `LIMIT size OFFSET offset` returns from the matching orders. */
  function PageOf<T>(matching: seq<T>, offset: nat, size: nat): (r: seq<T>)
    ensures |r| <= size
    ensures offset < |matching| ==> |r| > 0 || size == 0
    ensures offset >= |matching| ==> r == []
  {
    matching[Min(offset, |matching|)..Min(offset + size, |matching|)]
  }

  /** `(page - 1) * pageSize`: never negative for a page from 1 on and a positive size, and negative below page 1. */
  function Offset(page: int, size: int): (offset: int)
    ensures size > 0 ==> (offset >= 0 <==> page >= 1)
    ensures size > 0 && page >= 1 ==> offset == (page - 1) * size
  {
    MulSign(page - 1, size);
    (page - 1) * size
  }

  lemma MulSign(a: int, b: int)
    ensures b > 0 ==> (a * b >= 0 <==> a >= 0)
  {
    if b > 0 && a < 0 {
      assert a * b <= -b;
    }
  }

  /**
   * getAllOrdersForAUser, given the user's completed orders in the order the
   * query returns them: page defaults to 1 and pageSize to 6; the database
   * refuses a negative LIMIT or OFFSET (a 500); no order is a 400; otherwise
   * the page's orders and the page numbers.
   */
  function Paginate<T>(pageParam: Option<string>, pageSizeParam: Option<string>, matching: seq<T>): (r: OrdersReply<T>)
    ensures r.OrdersPage? ==>
              && r.pagination.page >= 1 && r.pagination.pageSize >= 1
              && r.pagination.totalProducts == |matching| > 0
              && |r.orders| <= r.pagination.pageSize
              && (|r.orders| > 0 <==> r.pagination.page <= r.pagination.totalPages)
  {
    var page := OrDefault(pageParam, 1);
    var pageSize := OrDefault(pageSizeParam, 6);
    var offset := Offset(page, pageSize);
    if pageSize < 0 || offset < 0 then QueryFailed
    else if |matching| == 0 then NoOrdersFound
    else
      PageNonEmptyIff(matching, page, pageSize);
      OrdersPage(PageOf(matching, offset, pageSize), Pagination(page, pageSize, |matching|, CeilDiv(|matching|, pageSize)))
  }

  /**
   * Which reply a request gets: 500 exactly when the page size is negative or
   * the page is below 1, 400 exactly when the query succeeds and the user has
   * no completed order, otherwise 200 with the page's slice of the orders,
   * the page, the page size, the number of orders and the page count.
   */
  lemma PaginateReplies<T>(pageParam: Option<string>, pageSizeParam: Option<string>, matching: seq<T>)
    ensures var page := OrDefault(pageParam, 1);
            var pageSize := OrDefault(pageSizeParam, 6);
            var r := Paginate(pageParam, pageSizeParam, matching);
      && pageSize != 0
      && (r.QueryFailed? <==> pageSize < 0 || page < 1)
      && (r.NoOrdersFound? <==> pageSize > 0 && page >= 1 && |matching| == 0)
      && (r.Status() == 500 <==> pageSize < 0 || page < 1)
      && (r.Status() == 400 <==> pageSize > 0 && page >= 1 && |matching| == 0)
      && (r.Status() == 200 <==> pageSize > 0 && page >= 1 && |matching| > 0)
      && (r.OrdersPage? ==>
            && r.pagination == Pagination(page, pageSize, |matching|, CeilDiv(|matching|, pageSize))
            && r.orders == PageOf(matching, Offset(page, pageSize), pageSize))
  {
  }

  /** A request without parameters gets the first six orders. */
  lemma FirstPageByDefault<T>(matching: seq<T>)
    requires |matching| > 0
    ensures Paginate(None, None, matching)
         == OrdersPage(matching[..Min(6, |matching|)], Pagination(1, 6, |matching|, CeilDiv(|matching|, 6)))
  {
  }

  /** A page from 1 on holds an order exactly when it is not past the last page. */
  lemma PageNonEmptyIff<T>(matching: seq<T>, page: int, size: int)
    requires size > 0 && page >= 1 && |matching| > 0
    ensures |PageOf(matching, Offset(page, size), size)| > 0 <==> page <= CeilDiv(|matching|, size)
  {
    var total := CeilDiv(|matching|, size);
    var offset := Offset(page, size);
    assert offset == (page - 1) * size;
    if page <= total {
      MulMonotone(page - 1, total - 1, size);
    } else {
      MulMonotone(total, page - 1, size);
    }
  }

  lemma MulMonotone(a: int, b: int, size: int)
    requires a <= b && size >= 0
    ensures a * size <= b * size
  {
    MulSign(b - a, size + 1);
    assert b * size - a * size == (b - a) * size;
  }

  /** Pages 1 to k, one after the other. */
  function FirstPages<T>(matching: seq<T>, size: nat, k: nat): seq<T> {
    if k == 0 then [] else FirstPages(matching, size, k - 1) + PageOf(matching, (k - 1) * size, size)
  }

  lemma {:induction false} FirstPagesArePrefix<T>(matching: seq<T>, size: nat, k: nat)
    ensures FirstPages(matching, size, k) == matching[..Min(k * size, |matching|)]
  {
    if k > 0 {
      FirstPagesArePrefix(matching, size, k - 1);
      assert (k - 1) * size + size == k * size;
      assert (k - 1) * size <= k * size;
    }
  }

  /** Pages 1 to totalPages, one after the other, list every order once and in order. */
  lemma PagesCoverAllOrders<T>(matching: seq<T>, size: int)
    requires size > 0
    ensures FirstPages(matching, size, CeilDiv(|matching|, size)) == matching
  {
    FirstPagesArePrefix(matching, size, CeilDiv(|matching|, size));
  }
}
