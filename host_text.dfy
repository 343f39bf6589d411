/** The strings the 08.1 host program builds: `std::to_string` of an `int`, the message
    of `throw_if_error`, the kernel instance names and the usage message of `run`. */
module HostText {
  import opened Words
  import opened Wrappers

  predicate IsDigit(c: char)
  {
    '0' <= c <= '9'
  }

  predicate AllDigits(s: string)
  {
    forall i :: 0 <= i < |s| ==> IsDigit(s[i])
  }

  function DigitChar(d: nat): (c: char)
    requires d < 10
    ensures IsDigit(c)
  {
    ('0' as int + d) as char
  }

  function DigitValue(c: char): (d: nat)
    requires IsDigit(c)
    ensures d < 10
  {
    c as int - '0' as int
  }

  /** The decimal digits of `n`, most significant first, with no leading zero. */
  function Digits(n: nat): (r: string)
    ensures |r| >= 1 && AllDigits(r)
    ensures n > 0 ==> r[0] != '0'
  {
    if n < 10 then [DigitChar(n)] else Digits(n / 10) + [DigitChar(n % 10)]
  }

  /** The value of a string of decimal digits. */
  function ParseDigits(s: string): nat
    requires AllDigits(s)
  {
    if |s| == 0 then 0 else 10 * ParseDigits(s[..|s| - 1]) + DigitValue(s[|s| - 1])
  }

  /** Reading back the digits of `n` gives `n`: the decimal form is one-to-one. */
  lemma {:induction false} DigitsRoundTrip(n: nat)
    ensures ParseDigits(Digits(n)) == n
  {
    var s := Digits(n);
    if n >= 10 {
      assert s[..|s| - 1] == Digits(n / 10);
      DigitsRoundTrip(n / 10);
    } else {
      assert s[..0] == [];
    }
  }

  /** `std::to_string(int)`: a minus sign before the digits of a negative value. */
  function IntToString(n: int): (r: string)
    ensures |r| >= 1
    ensures forall i :: 0 <= i < |r| ==> r[i] != '\''
  {
    if n < 0 then "-" + Digits(-n) else Digits(n)
  }

  predicate IsIntString(s: string)
  {
    if |s| > 0 && s[0] == '-' then |s| > 1 && AllDigits(s[1..]) else |s| > 0 && AllDigits(s)
  }

  function ParseInt(s: string): int
    requires IsIntString(s)
  {
    if |s| > 0 && s[0] == '-' then 0 - ParseDigits(s[1..]) as int else ParseDigits(s)
  }

  /** `to_string` is undone by reading the number back. */
  lemma IntToStringRoundTrip(n: int)
    ensures IsIntString(IntToString(n))
    ensures ParseInt(IntToString(n)) == n
  {
    if n < 0 {
      assert IntToString(n)[1..] == Digits(-n);
      DigitsRoundTrip(-n);
    } else {
      DigitsRoundTrip(n);
    }
  }

  const ERRCODE_PREFIX: string := "errcode '"

  /** `throw_if_error(errcode, msg)`: `None` when it returns, which is exactly when
      `errcode` is 0; otherwise the text of the `runtime_error` it throws. The text is
      recovered in full by `ParseError`, so it determines both arguments. */
  function ThrowIfError(errcode: Int32, msg: Option<string>): (r: Option<string>)
    ensures r.None? <==> errcode == 0
    ensures r.Some? ==> ParseError(r.value) == Some((errcode as int, msg))
  {
    if errcode == 0 then None
    else
      var err := ERRCODE_PREFIX + IntToString(errcode) + "'" + (if msg.Some? then " " + msg.value else "");
      ErrorMessageParses(errcode, msg, err);
      Some(err)
  }

  /** The index of the first quote in `s`, or `|s|` when there is none. */
  function QuoteIndex(s: string): (k: nat)
    ensures k <= |s|
    ensures forall i :: 0 <= i < k ==> s[i] != '\''
    ensures k < |s| ==> s[k] == '\''
  {
    if |s| == 0 || s[0] == '\'' then 0 else 1 + QuoteIndex(s[1..])
  }

  /** Reads a `throw_if_error` message back into its error code and optional text. */
  function ParseError(s: string): Option<(int, Option<string>)>
  {
    if |s| < |ERRCODE_PREFIX| || s[..|ERRCODE_PREFIX|] != ERRCODE_PREFIX then None
    else
      var body := s[|ERRCODE_PREFIX|..];
      var k := QuoteIndex(body);
      if k == |body| || !IsIntString(body[..k]) then None
      else
        var rest := body[k + 1..];
        if rest == [] then Some((ParseInt(body[..k]), None))
        else if rest[0] == ' ' then Some((ParseInt(body[..k]), Some(rest[1..])))
        else None
  }

  lemma {:induction false} QuoteIndexAfter(t: string, tail: string)
    requires forall i :: 0 <= i < |t| ==> t[i] != '\''
    ensures QuoteIndex(t + "'" + tail) == |t|
  {
    if |t| > 0 {
      assert (t + "'" + tail)[1..] == t[1..] + "'" + tail;
      QuoteIndexAfter(t[1..], tail);
    }
  }

  lemma ErrorMessageParses(errcode: Int32, msg: Option<string>, err: string)
    requires err == ERRCODE_PREFIX + IntToString(errcode) + "'" + (if msg.Some? then " " + msg.value else "")
    ensures ParseError(err) == Some((errcode as int, msg))
  {
    var t := IntToString(errcode);
    var tail := if msg.Some? then " " + msg.value else "";
    assert err[..|ERRCODE_PREFIX|] == ERRCODE_PREFIX;
    var body := err[|ERRCODE_PREFIX|..];
    assert body == t + "'" + tail;
    QuoteIndexAfter(t, tail);
    assert body[..|t|] == t;
    assert body[|t| + 1..] == tail;
    IntToStringRoundTrip(errcode);
    if msg.Some? {
      assert tail[1..] == msg.value;
    }
  }

  /** The call `throw_if_error(num_devices == 0, "no devices")` of `run`, when no device
      is found. */
  lemma NoDevicesMessage()
    ensures ThrowIfError(1, Some("no devices")) == Some("errcode '1' no devices")
  {
    assert DigitChar(1) == '1';
    assert IntToString(1) == "1";
    assert ERRCODE_PREFIX + "1" + "'" + (" " + "no devices") == "errcode '1' no devices";
  }

  /** `run(argc, argv)`: the text it throws when no xclbin file is named, or `None`
      when `argc` is at least 2 and it goes on. */
  function CheckArgs(argc: int): (r: Option<string>)
    ensures r.None? <==> argc >= 2
    ensures r.Some? ==> r.value == USAGE
  {
    if argc < 2 then Some(USAGE) else None
  }

  const USAGE: string := "usage: host.exe <xclbin>"

  /** Number of compute units the host drives. */
  const NCU: nat := 14

  /** `kernel_names_`: the instance names the jobs bind to, in job order. */
  const KERNEL_NAMES: seq<string> := [
    "vadd:{vadd_1}", "vadd:{vadd_2}", "vadd:{vadd_3}", "vadd:{vadd_4}", "vadd:{vadd_5}",
    "vadd:{vadd_6}", "vadd:{vadd_7}", "vadd:{vadd_8}", "vadd:{vadd_9}", "vadd:{vadd_10}",
    "vadd:{vadd_11}", "vadd:{vadd_12}", "vadd:{vadd_13}", "vadd:{vadd_14}"]

  const NAME_PREFIX: string := "vadd:{vadd_"

  /** Name j is that of compute unit j + 1. */
  lemma KernelNamesNumbered(j: nat)
    requires j < NCU
    ensures |KERNEL_NAMES| == NCU
    ensures KERNEL_NAMES[j] == NAME_PREFIX + Digits(j + 1) + "}"
  {
    assert Digits(10) == "10" && Digits(11) == "11" && Digits(12) == "12";
    assert Digits(13) == "13" && Digits(14) == "14";
  }

  /** The 14 names are distinct, so each job binds its own compute unit. */
  lemma {:induction false} KernelNamesDistinct(i: nat, j: nat)
    requires i < NCU && j < NCU && i != j
    ensures KERNEL_NAMES[i] != KERNEL_NAMES[j]
  {
    KernelNamesNumbered(i);
    KernelNamesNumbered(j);
    if KERNEL_NAMES[i] == KERNEL_NAMES[j] {
      var a, b := Digits(i + 1), Digits(j + 1);
      var n := KERNEL_NAMES[i];
      assert n[|NAME_PREFIX|..|n| - 1] == a;
      assert n[|NAME_PREFIX|..|n| - 1] == b;
      DigitsRoundTrip(i + 1);
      DigitsRoundTrip(j + 1);
      assert false;
    }
  }
}
