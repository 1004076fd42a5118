/**
  Log line formatting: src/base/LogStream.h and src/base/LogStream.cc.
 */
module LogStream {
  import opened Common
  import opened Decimal

  const SMALL_BUFFER := 4000
  const MAX_NUMERIC_SIZE := 32

  /** `FixedBuffer<SIZE>`; `cur` is the index `cur_` points to. */
  class FixedBuffer {
    const data: array<char>
    var cur: nat

    ghost predicate Valid()
      reads this
    {
      cur <= data.Length
    }

    /** The bytes appended since construction or the last `Reset`. */
    function Contents(): string
      requires Valid()
      reads this, data
    {
      data[..cur]
    }

    constructor (size: nat)
      ensures Valid() && fresh(data) && data.Length == size && Contents() == ""
    {
      data := new char[size];
      cur := 0;
    }

    function Avail(): int
      reads this
    {
      data.Length - cur
    }

    /** Takes a text only if room remains behind it; otherwise drops it whole. */
    method Append(text: string)
      requires Valid()
      modifies this`cur, data
      ensures Valid()
      ensures Contents() == old(Contents()) + (if |text| < old(Avail()) then text else "")
    {
      if Avail() > |text| {
        for i := 0 to |text|
          invariant cur == old(cur) && data[..cur] == old(data[..cur]) && data[cur..cur + i] == text[..i]
        {
          data[cur + i] := text[i];
          assert data[cur..cur + i + 1] == data[cur..cur + i] + [text[i]] && text[..i + 1] == text[..i] + [text[i]];
        }
        assert data[..cur + |text|] == data[..cur] + data[cur..cur + |text|];
        cur := cur + |text|;
      }
    }

    /** Counts in the bytes that were written behind the contents. */
    method Add(len: nat)
      requires Valid() && cur + len <= data.Length
      modifies this`cur
      ensures Valid() && cur == old(cur) + len
      ensures Contents() == old(Contents()) + data[old(cur)..old(cur) + len]
    {
      cur := cur + len;
    }

    method Reset()
      modifies this`cur
      ensures Valid() && Contents() == ""
    {
      cur := 0;
    }
  }

  /** `zero[d]`, where `zero` points to the middle of the table: the digit of |d|. */
  function ZeroTable(d: int): char
    requires -9 <= d <= 9
  {
    "9876543210123456789"[9 + d]
  }

  lemma ZeroTableIsDigit(d: int)
    requires -9 <= d <= 9
    ensures ZeroTable(d) == DigitChar(if d < 0 then -d else d)
  {
  }

  function Abs(v: int): nat { if v < 0 then -v else v }

  /** Truncating division strips the last digit of negative numbers, too. */
  lemma LastDigit(i: int)
    ensures -9 <= TruncMod(i, 10) <= 9
    ensures Abs(TruncMod(i, 10)) == Abs(i) % 10 && Abs(TruncDiv(i, 10)) == Abs(i) / 10
  {
  }

  /** Everything `long long` and `unsigned long long` can hold. */
  predicate Integer64(v: int) { -0x8000_0000_0000_0000 <= v <= 0xffff_ffff_ffff_ffff }

  lemma TextFits(v: int)
    requires Integer64(v)
    ensures |ReversedDigits(Abs(v))| + (if v < 0 then 1 else 0) <= 20
  {
    assert Power10(19) == 10_000_000_000_000_000_000 by { PowersOf10(); }
    if v < 0 {
      DigitCount(-v, 19);
    } else {
      assert Power10(20) == 10 * Power10(19);
      DigitCount(v, 20);
    }
  }

  lemma PowersOf10()
    ensures Power10(19) == 10_000_000_000_000_000_000
  {
    assert Power10(5) == 100_000;
    assert Power10(10) == 10_000_000_000;
    assert Power10(15) == 1_000_000_000_000_000;
  }

  /** `std::reverse` on `buf[lo..hi]`. */
  method Reverse(buf: array<char>, lo: nat, hi: nat)
    requires lo <= hi <= buf.Length
    modifies buf
    ensures forall k :: 0 <= k < buf.Length && !(lo <= k < hi) ==> buf[k] == old(buf[k])
    ensures buf[lo..hi] == Reversed(old(buf[lo..hi]))
  {
    var i, j := lo, hi;
    while i < j && i < j - 1
      invariant lo <= i <= j <= hi && i - lo == hi - j
      invariant forall k :: 0 <= k < buf.Length && (k < lo || i <= k < j || hi <= k) ==> buf[k] == old(buf[k])
      invariant forall k :: lo <= k < i || j <= k < hi ==> buf[k] == old(buf[lo + hi - 1 - k])
    {
      j := j - 1;
      buf[i], buf[j] := buf[j], buf[i];
      i := i + 1;
    }
    assert i == j || i == j - 1;
    assert forall k :: lo <= k < hi ==> buf[k] == old(buf[lo + hi - 1 - k]);
    ghost var s, r := old(buf[lo..hi]), buf[lo..hi];
    forall n | 0 <= n < |s|
      ensures r[n] == s[|s| - 1 - n]
    {
      assert r[n] == buf[lo + n] && s[|s| - 1 - n] == old(buf[lo + hi - 1 - (lo + n)]);
    }
    ReversedByIndex(s, r);
  }

  lemma ReversedByIndex(s: string, r: string)
    requires |r| == |s| && forall i :: 0 <= i < |s| ==> r[i] == s[|s| - 1 - i]
    ensures r == Reversed(s)
  {
    ReversedLength(s);
  }

  /** One round of the loop of `convert`: strips the last digit of `i` and writes it. */
  method WriteDigit(buf: array<char>, p: nat, i: int) returns (rest: int)
    requires p < buf.Length
    modifies buf
    ensures buf[..] == old(buf[..])[p := DigitChar(Abs(i) % 10)]
    ensures Abs(rest) == Abs(i) / 10
  {
    LastDigit(i);
    var lsd := TruncMod(i, 10);
    rest := TruncDiv(i, 10);
    ZeroTableIsDigit(lsd);
    buf[p] := ZeroTable(lsd);
  }

  /** `s` with the first `n` characters of `text` written over it from `start` on. */
  ghost function Overwritten(s: string, start: nat, text: string, n: nat): string
    requires n <= |text| && start + n <= |s|
  {
    s[..start] + text[..n] + s[start + n..]
  }

  lemma OverwriteNext(s: string, start: nat, text: string, n: nat)
    requires n < |text| && start + n < |s|
    ensures |Overwritten(s, start, text, n)| == |s|
    ensures Overwritten(s, start, text, n)[start + n := text[n]] == Overwritten(s, start, text, n + 1)
  {
  }

  /** The loop of `convert`: digits from the last to the first. */
  method WriteDigits(buf: array<char>, start: nat, value: int) returns (p: nat)
    requires Integer64(value) && start + MAX_NUMERIC_SIZE <= buf.Length
    modifies buf
    ensures |ReversedDigits(Abs(value))| <= 20 - (if value < 0 then 1 else 0)
    ensures p == start + |ReversedDigits(Abs(value))|
    ensures buf[..] == Overwritten(old(buf[..]), start, ReversedDigits(Abs(value)), p - start)
  {
    hide Abs, DigitChar, Overwritten;
    TextFits(value);
    ghost var was, digits := buf[..], ReversedDigits(Abs(value));
    OverwriteNothing(was, start, digits);
    FirstReversedDigit(Abs(value), digits);
    OverwriteNext(was, start, digits, 0);
    var i := WriteDigit(buf, start, value);
    p := start + 1;
    while i != 0
      invariant start < p <= start + |digits|
      invariant digits[p - start..] == if Abs(i) == 0 then "" else ReversedDigits(Abs(i))
      invariant buf[..] == Overwritten(was, start, digits, p - start)
      decreases Abs(i)
    {
      AbsZero(i);
      FirstReversedDigit(Abs(i), digits[p - start..]);
      OverwriteNext(was, start, digits, p - start);
      i := WriteDigit(buf, p, i);
      p := p + 1;
      assert digits[p - start..] == digits[p - 1 - start..][1..];
    }
    AbsZero(i);
  }

  lemma OverwriteNothing(s: string, start: nat, text: string)
    requires start <= |s|
    ensures Overwritten(s, start, text, 0) == s
  {
  }

  lemma AbsZero(i: int)
    ensures Abs(i) == 0 <==> i == 0
  {
  }

  lemma FirstReversedDigit(n: nat, digits: string)
    requires digits == ReversedDigits(n)
    ensures |digits| > 0 && digits[0] == DigitChar(n % 10)
    ensures digits[1..] == if n / 10 == 0 then "" else ReversedDigits(n / 10)
  {
  }

  /** The sign, if there is one, and the terminator. */
  method WriteSign(buf: array<char>, p: nat, negative: bool) returns (end: nat)
    requires p + 1 < buf.Length
    modifies buf
    ensures end == p + if negative then 1 else 0
    ensures buf[..end] == old(buf[..p]) + (if negative then "-" else "")
    ensures buf[end] == '\0' && buf[end + 1..] == old(buf[end + 1..])
  {
    end := p;
    if negative {
      buf[p] := '-';
      end := p + 1;
    }
    buf[end] := '\0';
  }

  /** The text in reverse is the reversed digits and then the sign. */
  lemma SignAndDigits(value: int)
    ensures Reversed(ReversedDigits(Abs(value)) + if value < 0 then "-" else "") == IntText(value)
  {
    hide Reversed, ReversedDigits, NatText;
    DigitsReversed(Abs(value));
    ReversedSnoc(ReversedDigits(Abs(value)), '-');
    assert ReversedDigits(Abs(value)) + "" == ReversedDigits(Abs(value));
  }

  /** `convert(buf + start, value)`: digits, sign and terminator, then reversal in place. */
  method Convert(buf: array<char>, start: nat, value: int) returns (len: nat)
    requires Integer64(value) && start + MAX_NUMERIC_SIZE <= buf.Length
    modifies buf
    ensures len < MAX_NUMERIC_SIZE
    ensures buf[..start + len] == old(buf[..start]) + IntText(value) && buf[start + len] == '\0'
    ensures buf[start + len + 1..] == old(buf[start + len + 1..])
  {
    hide ReversedDigits, Reversed, NatText, Abs, IntText;
    ghost var was, digits := buf[..], ReversedDigits(Abs(value));
    var p := WriteDigits(buf, start, value);
    assert buf[..p] == was[..start] + digits && buf[p..] == was[p..] by {
      assert buf[..][..p] == buf[..p] && buf[..][p..] == buf[p..];
    }
    p := WriteSign(buf, p, value < 0);
    ghost var text := digits + if value < 0 then "-" else "";
    assert buf[..p] == was[..start] + text && buf[p + 1..] == was[p + 1..];
    assert buf[start..p] == buf[..p][start..] == text;
    ghost var before := buf[..];
    Reverse(buf, start, p);
    SignAndDigits(value);
    len := p - start;
    assert buf[..start] == before[..start] == was[..start];
    assert buf[..p] == buf[..start] + buf[start..p];
    assert buf[p + 1..] == before[p + 1..];
  }

  lemma {:induction false} ReversedSnoc(s: string, c: char)
    ensures Reversed(s + [c]) == [c] + Reversed(s)
  {
    if s == "" {
      assert Reversed([c]) == Reversed([c][1..]) + [c];
    } else {
      assert (s + [c])[1..] == s[1..] + [c];
      ReversedSnoc(s[1..], c);
    }
  }

  /** `LogStream` and its integer insertion operators. */
  class LogStream {
    const buffer: FixedBuffer

    constructor ()
      ensures fresh(buffer) && fresh(buffer.data) && buffer.Valid()
      ensures buffer.data.Length == SMALL_BUFFER && buffer.Contents() == ""
    {
      buffer := new FixedBuffer(SMALL_BUFFER);
    }

    /** Appends the number if 32 bytes are free, and otherwise nothing. */
    method FormatInteger(v: int)
      requires buffer.Valid() && Integer64(v)
      modifies buffer`cur, buffer.data
      ensures buffer.Valid()
      ensures buffer.Contents() == old(buffer.Contents())
                                   + (if old(buffer.Avail()) >= MAX_NUMERIC_SIZE then IntText(v) else "")
    {
      hide IntText;
      if buffer.Avail() >= MAX_NUMERIC_SIZE {
        var len := Convert(buffer.data, buffer.cur, v);
        buffer.Add(len);
      }
    }
  }
}
