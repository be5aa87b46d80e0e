/**
  The few behaviours of Python's `str` that agent.py relies on, stated over
  `string` (a sequence of characters): `s.lower()` restricted to ASCII,
  `sep.join(items)` both over strings and over arbitrary values (where it
  raises `TypeError`), `c * n`, and `str(n)` for a natural number.
 */
module PyStr {
  import opened Wrappers
  import opened Sequences

  /** One character of `s.lower()`, ASCII only: 'A'..'Z' become 'a'..'z'. */
  function LowerChar(c: char): char
  {
    if 'A' <= c <= 'Z' then (c as int + 32) as char else c
  }

  /** `s.lower()` with ASCII case mapping. */
  function Lower(s: string): (r: string)
    ensures |r| == |s|
  {
    if s == [] then [] else [LowerChar(s[0])] + Lower(s[1..])
  }

  /** Lowering maps character by character, keeping positions. */
  lemma {:induction false} LowerAt(s: string, i: nat)
    requires i < |s|
    ensures Lower(s)[i] == LowerChar(s[i])
  {
    if i > 0 {
      LowerAt(s[1..], i - 1);
    }
  }

  /** `sep.join(parts)` for a list whose items are all strings. */
  function Join(sep: string, parts: seq<string>): string
    decreases |parts|
  {
    if |parts| == 0 then ""
    else if |parts| == 1 then parts[0]
    else parts[0] + sep + Join(sep, parts[1..])
  }

  /** Sum of the lengths of `parts`. */
  function TotalLength(parts: seq<string>): nat
  {
    if parts == [] then 0 else |parts[0]| + TotalLength(parts[1..])
  }

  /** Where `parts[i]` starts inside `Join(sep, parts)`: past each earlier part and the separator after it. */
  function Offset(sep: string, parts: seq<string>, i: nat): nat
    requires i <= |parts|
  {
    if i == 0 then 0 else |parts[0]| + |sep| + Offset(sep, parts[1..], i - 1)
  }

  /** The joined text has every part's characters and one separator between neighbours. */
  lemma {:induction false} JoinLength(sep: string, parts: seq<string>)
    requires |parts| > 0
    ensures |Join(sep, parts)| == TotalLength(parts) + (|parts| - 1) * |sep|
  {
    if |parts| > 1 {
      JoinLength(sep, parts[1..]);
    }
  }

  /** Joining two non-empty lists puts exactly one separator at the seam. */
  lemma {:induction false} JoinAppend(sep: string, a: seq<string>, b: seq<string>)
    requires |a| > 0 && |b| > 0
    ensures Join(sep, a + b) == Join(sep, a) + sep + Join(sep, b)
  {
    if |a| == 1 {
      assert (a + b)[1..] == b;
    } else {
      assert (a + b)[1..] == a[1..] + b;
      JoinAppend(sep, a[1..], b);
    }
  }

  /** With the empty separator, joining distributes over list concatenation. */
  lemma {:induction false} JoinEmptySeparatorAppend(a: seq<string>, b: seq<string>)
    ensures Join("", a + b) == Join("", a) + Join("", b)
  {
    if a == [] {
      assert a + b == b;
    } else if b == [] {
      assert a + b == a;
    } else {
      JoinAppend("", a, b);
    }
  }

  /** Past the first part and its separator, the joined text is the join of the remaining parts. */
  lemma {:induction false} JoinShift(sep: string, parts: seq<string>, lo: nat, hi: nat)
    requires 1 < |parts| && lo <= hi <= |Join(sep, parts[1..])|
    ensures |parts[0]| + |sep| + hi <= |Join(sep, parts)|
    ensures Join(sep, parts)[|parts[0]| + |sep| + lo..|parts[0]| + |sep| + hi] == Join(sep, parts[1..])[lo..hi]
  {
  }

  /** The joined text starts with the first part, followed by the separator when more parts come. */
  lemma {:induction false} JoinStart(sep: string, parts: seq<string>)
    requires 0 < |parts|
    ensures |parts[0]| <= |Join(sep, parts)|
    ensures Join(sep, parts)[..|parts[0]|] == parts[0]
    ensures 1 < |parts| ==>
      |parts[0]| + |sep| <= |Join(sep, parts)| && Join(sep, parts)[|parts[0]|..|parts[0]| + |sep|] == sep
  {
  }

  /**
    Order is kept: part `i` occupies `Join(sep, parts)[Offset(sep, parts, i)..]`
    for its own length.
   */
  lemma {:induction false} JoinPartAt(sep: string, parts: seq<string>, i: nat)
    requires i < |parts|
    ensures Offset(sep, parts, i) + |parts[i]| <= |Join(sep, parts)|
    ensures Join(sep, parts)[Offset(sep, parts, i)..Offset(sep, parts, i) + |parts[i]|] == parts[i]
  {
    if i == 0 {
      JoinStart(sep, parts);
    } else {
      JoinPartAt(sep, parts[1..], i - 1);
      var o := Offset(sep, parts[1..], i - 1);
      JoinShift(sep, parts, o, o + |parts[i]|);
    }
  }

  /** Every part but the last is followed by the separator. */
  lemma {:induction false} JoinSeparatorAfter(sep: string, parts: seq<string>, i: nat)
    requires i + 1 < |parts|
    ensures Offset(sep, parts, i) + |parts[i]| + |sep| <= |Join(sep, parts)|
    ensures Join(sep, parts)[Offset(sep, parts, i) + |parts[i]|..Offset(sep, parts, i) + |parts[i]| + |sep|] == sep
  {
    if i == 0 {
      JoinStart(sep, parts);
    } else {
      JoinSeparatorAfter(sep, parts[1..], i - 1);
      var o := Offset(sep, parts[1..], i - 1) + |parts[i]|;
      JoinShift(sep, parts, o, o + |sep|);
    }
  }

  /** An arbitrary Python object as far as `str.join` cares: a `str`, or not. */
  datatype Value = Str(s: string) | NonStr(typeName: string)

  /** The `TypeError` `str.join` raises: item `index` has type `typeName`. */
  datatype JoinError = ItemNotStr(index: nat, typeName: string)

  /** Every item is a string. */
  predicate AllStr(items: seq<Value>)
  {
    items == [] || (items[0].Str? && AllStr(items[1..]))
  }

  /** The strings held by a list whose items are all strings. */
  function Strings(items: seq<Value>): (r: seq<string>)
    requires AllStr(items)
    ensures |r| == |items|
    ensures forall i :: 0 <= i < |items| ==> items[i].Str? && r[i] == items[i].s
  {
    if items == [] then [] else [items[0].s] + Strings(items[1..])
  }

  /**
    `sep.join(items)` over arbitrary values, item by item: it raises on the
    first item that is not a string, and otherwise joins them.
   */
  function JoinValues(sep: string, items: seq<Value>): (r: Result<string, JoinError>)
    ensures r.Success? <==> AllStr(items)
    ensures r.Failure? ==>
      && r.error.index < |items|
      && items[r.error.index] == NonStr(r.error.typeName)
  {
    if items == [] then Success("")
    else if items[0].NonStr? then Failure(ItemNotStr(0, items[0].typeName))
    else
      match JoinValues(sep, items[1..])
      case Failure(e) => Failure(ItemNotStr(e.index + 1, e.typeName))
      case Success(rest) =>
        Success(if |items| == 1 then items[0].s else items[0].s + sep + rest)
  }

  /** When every item is a string, `JoinValues` is `str.join` over those strings. */
  lemma {:induction false} JoinValuesJoins(sep: string, items: seq<Value>)
    requires AllStr(items)
    ensures JoinValues(sep, items) == Success(Join(sep, Strings(items)))
  {
    if items != [] {
      JoinValuesJoins(sep, items[1..]);
      assert Strings(items)[1..] == Strings(items[1..]);
    }
  }

  /** The item `str.join` reports is the first non-string: every item before it is a string. */
  lemma {:induction false} JoinValuesFirstError(sep: string, items: seq<Value>, j: nat)
    requires JoinValues(sep, items).Failure? && j < JoinValues(sep, items).error.index
    ensures items[j].Str?
  {
    if j > 0 {
      JoinValuesFirstError(sep, items[1..], j - 1);
    }
  }

  /** With an empty separator, a leading string is simply prepended. */
  lemma {:induction false} JoinValuesCons(x: Value, w: seq<Value>)
    requires x.Str? && JoinValues("", w).Success?
    ensures JoinValues("", [x] + w) == Success(x.s + JoinValues("", w).value)
  {
    assert ([x] + w)[1..] == w;
    if w == [] {
      assert x.s + "" == x.s;
    } else {
      assert x.s + "" + JoinValues("", w).value == x.s + JoinValues("", w).value;
    }
  }

  /**
    `"".join` distributes over concatenation of item lists that hold only
    strings: the result for `u + v` is that of `u` followed by that of `v`.
   */
  lemma {:induction false} JoinValuesAppend(u: seq<Value>, v: seq<Value>)
    requires JoinValues("", u).Success? && JoinValues("", v).Success?
    ensures JoinValues("", u + v) == Success(JoinValues("", u).value + JoinValues("", v).value)
  {
    if u == [] {
      assert u + v == v;
      assert "" + JoinValues("", v).value == JoinValues("", v).value;
    } else {
      var x, w := u[0], u[1..];
      assert u == [x] + w;
      assert u + v == [x] + (w + v);
      JoinValuesCons(x, w);
      JoinValuesAppend(w, v);
      JoinValuesCons(x, w + v);
      AppendAssociates(x.s, JoinValues("", w).value, JoinValues("", v).value);
    }
  }

  /** An error in `u` is the error for `u + v`. */
  lemma {:induction false} JoinValuesAppendFailsLeft(u: seq<Value>, v: seq<Value>)
    requires JoinValues("", u).Failure?
    ensures JoinValues("", u + v) == JoinValues("", u)
  {
    assert (u + v)[0] == u[0];
    if u[0].Str? {
      assert (u + v)[1..] == u[1..] + v;
      JoinValuesAppendFailsLeft(u[1..], v);
    }
  }

  /** When only `v` holds a non-string, the error for `u + v` is `|u|` items further on. */
  lemma {:induction false} JoinValuesAppendFailsRight(u: seq<Value>, v: seq<Value>)
    requires JoinValues("", u).Success? && JoinValues("", v).Failure?
    ensures JoinValues("", u + v) ==
      Failure(ItemNotStr(|u| + JoinValues("", v).error.index, JoinValues("", v).error.typeName))
  {
    var e := JoinValues("", v).error;
    if u == [] {
      assert u + v == v;
      assert e == ItemNotStr(e.index, e.typeName);
    } else {
      var x, w := u[0], u[1..];
      assert (u + v)[0] == x;
      assert (u + v)[1..] == w + v;
      JoinValuesAppendFailsRight(w, v);
      assert JoinValues("", w + v) == Failure(ItemNotStr(|w| + e.index, e.typeName));
    }
  }

  /** `c * n`: `n` copies of the character `c`. */
  function Repeat(c: char, n: nat): (r: string)
    ensures |r| == n
    ensures forall i :: 0 <= i < n ==> r[i] == c
  {
    if n == 0 then "" else [c] + Repeat(c, n - 1)
  }

  /** `str(n)` for a natural number: its decimal digits. */
  function Decimal(n: nat): (r: string)
    ensures |r| > 0
    ensures forall i :: 0 <= i < |r| ==> '0' <= r[i] <= '9'
  {
    var d := (48 + n % 10) as char;
    if n < 10 then [d] else Decimal(n / 10) + [d]
  }

  /** The number a string of decimal digits spells, most significant digit first. */
  function DigitsValue(s: string): int
  {
    if s == [] then 0 else 10 * DigitsValue(s[..|s| - 1]) + (s[|s| - 1] as int - '0' as int)
  }

  /** `str(n)` spells `n`, with no leading zero: 0 is the single digit "0". */
  lemma {:induction false} DecimalValue(n: nat)
    ensures DigitsValue(Decimal(n)) == n
    ensures Decimal(n)[0] == '0' ==> n == 0
    ensures |Decimal(n)| == 1 <==> n < 10
  {
    if n >= 10 {
      DecimalValue(n / 10);
      var r := Decimal(n);
      assert r[..|r| - 1] == Decimal(n / 10);
      assert r[0] == Decimal(n / 10)[0];
    }
  }

  /** `"%.<width>s" % s`: at most the first `width` characters of `s`. */
  function Truncated(s: string, width: nat): (r: string)
    ensures r <= s
    ensures |r| == if |s| <= width then |s| else width
  {
    if |s| <= width then s else s[..width]
  }

  /** CPython formats the offending type's name with `%.80s`. */
  const TypeNameWidth: nat := 80

  /** `str(e)` for the `TypeError` of `str.join`, as CPython 3 words it. */
  function JoinErrorMessage(e: JoinError): string
  {
    "sequence item " + Decimal(e.index) + ": expected str instance, " + Truncated(e.typeName, TypeNameWidth) + " found"
  }

  /**
    The message can be read back: after "sequence item " come decimal digits
    spelling the item's position, then a colon; it ends with the type name cut
    to 80 characters and " found".
   */
  lemma {:induction false} JoinErrorMessageIndex(e: JoinError)
    ensures var m, d := JoinErrorMessage(e), |Decimal(e.index)|;
      && 14 + d < |m|
      && m[..14] == "sequence item "
      && (forall i :: 14 <= i < 14 + d ==> '0' <= m[i] <= '9')
      && DigitsValue(m[14..14 + d]) == e.index
      && m[14 + d] == ':'
      && m[|m| - 6..] == " found"
      && m[|m| - 6 - |Truncated(e.typeName, TypeNameWidth)|..|m| - 6] == Truncated(e.typeName, TypeNameWidth)
  {
    var digits, name := Decimal(e.index), Truncated(e.typeName, TypeNameWidth);
    var head := "sequence item ";
    var middle := ": expected str instance, ";
    var m := JoinErrorMessage(e);
    assert m == head + digits + middle + name + " found";
    assert m[14..14 + |digits|] == digits;
    DecimalValue(e.index);
  }
}
