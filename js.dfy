/** The JavaScript built-ins the STOMP code leans on, stated exactly for
    the inputs the model feeds them: `String.prototype.indexOf`, `slice`,
    `substr`, `split(':', 2)`, `toLowerCase`, `parseInt` and the decimal
    rendering of a length. Strings are `seq<char>`: a char is a Unicode
    scalar value, so lengths count those and not UTF-16 code units. */
module Js {

  datatype Option<+T> = None | Some(value: T)

  /** A JavaScript number as far as the model needs one: an integer or NaN. */
  datatype Number = Num(value: int) | NaN

  /** JavaScript's `x > k`; every comparison with NaN is false. */
  predicate GreaterThan(x: Number, k: int)
  {
    x.Num? && x.value > k
  }

  /** `s.indexOf(c)`: the first position of `c` in `s`, or -1. */
  function IndexOf(s: string, c: char): (r: int)
    ensures -1 <= r < |s|
    ensures r == -1 <==> c !in s
    ensures r >= 0 ==> s[r] == c && c !in s[..r]
  {
    if s == [] then -1
    else if s[0] == c then 0
    else
      var k := IndexOf(s[1..], c);
      if k == -1 then -1
      else
        assert s[..k + 1] == [s[0]] + s[1..][..k];
        k + 1
  }

  /** Where a position argument of `slice`/`substr` lands in a string of
      length `len`: a negative position counts from the end, and the
      result is clamped to [0, len]. */
  function Position(i: int, len: nat): (r: nat)
    ensures r <= len
    ensures 0 <= i <= len ==> r == i
    ensures i < 0 && -i <= len ==> r == len + i
    ensures i < 0 && -i > len ==> r == 0
  {
    if i < 0 then (if len + i < 0 then 0 else len + i)
    else if i > len then len
    else i
  }

  /** `s.slice(start, end)`. */
  function Slice(s: string, start: int, end: int): (r: string)
    ensures 0 <= start <= end <= |s| ==> r == s[start..end]
    ensures start == 0 && end > |s| ==> r == s
    ensures start == 0 && end < 0 ==> |r| == (if |s| + end < 0 then 0 else |s| + end)
  {
    var from, to := Position(start, |s|), Position(end, |s|);
    if from < to then s[from..to] else ""
  }

  /** `s.substr(start)` (no length argument): the suffix from `start`. */
  function Substr(s: string, start: int): (r: string)
    ensures 0 <= start <= |s| ==> r == s[start..]
    ensures start > |s| ==> r == ""
    ensures start < 0 ==> |r| == (if -start < |s| then -start else |s|)
    ensures |r| <= |s| && r == s[|s| - |r|..]
  {
    s[Position(start, |s|)..]
  }

  /** `s.slice(0, k)` and `s.substr(k)` split `s` in two for every `k`,
      negative ones included. */
  lemma SliceSubstrSplit(s: string, k: int)
    ensures Slice(s, 0, k) + Substr(s, k) == s
  {
    var p := Position(k, |s|);
    assert Slice(s, 0, k) == s[..p];
  }

  /** `s.slice(0, k)` and `s.substr(k)` split `s` in two; for `k >= 0`
      the first part has at most `k` characters, and fewer only when the
      second is empty. */
  lemma SliceSubstrTake(s: string, k: int)
    ensures Slice(s, 0, k) + Substr(s, k) == s
    ensures k >= 0 ==> |Slice(s, 0, k)| <= k && (|Slice(s, 0, k)| == k || Substr(s, k) == "")
  {
    SliceSubstrSplit(s, k);
  }

  /** A position holding `c` with no `c` before it is what `indexOf` finds. */
  lemma IndexOfAt(s: string, c: char, i: int)
    requires 0 <= i < |s| && s[i] == c && c !in s[..i]
    ensures IndexOf(s, c) == i
  {
    assert s[i] in s;
  }

  /** `indexOf` on a concatenation: found in the first part, or else in
      the second part shifted by the first part's length. */
  lemma IndexOfAppend(s: string, t: string, c: char)
    ensures c in s ==> IndexOf(s + t, c) == IndexOf(s, c)
    ensures c !in s ==> IndexOf(s + t, c) == if c in t then |s| + IndexOf(t, c) else -1
  {
    if c in s {
      IndexOfInFirst(s, t, c);
    } else if c in t {
      IndexOfInSecond(s, t, c);
    } else {
      assert c !in s + t;
    }
  }

  lemma IndexOfInFirst(s: string, t: string, c: char)
    requires c in s
    ensures IndexOf(s + t, c) == IndexOf(s, c)
  {
    var j := IndexOf(s, c);
    assert (s + t)[..j] == s[..j];
    IndexOfAt(s + t, c, j);
  }

  lemma IndexOfInSecond(s: string, t: string, c: char)
    requires c !in s && c in t
    ensures IndexOf(s + t, c) == |s| + IndexOf(t, c)
  {
    var k := IndexOf(t, c);
    assert (s + t)[..|s| + k] == s + t[..k];
    IndexOfAt(s + t, c, |s| + k);
  }

  /** Cutting `s + t` at a position inside `s`. */
  lemma CutInFirst(s: string, t: string, k: int)
    requires 0 <= k <= |s|
    ensures Slice(s + t, 0, k) == Slice(s, 0, k)
    ensures Substr(s + t, k) == Substr(s, k) + t
  {
    assert (s + t)[0..k] == s[0..k];
    assert (s + t)[k..] == s[k..] + t;
  }

  /** Cutting `s + t` at a position past `s`. */
  lemma CutInSecond(s: string, t: string, k: int)
    requires |s| <= k
    ensures Slice(s + t, 0, k) == s + Slice(t, 0, k - |s|)
    ensures Substr(s + t, k) == Substr(t, k - |s|)
  {
    var j := k - |s|;
    if j <= |t| {
      assert (s + t)[0..k] == s + t[0..j];
      assert (s + t)[k..] == t[j..];
    } else {
      assert s + t == s + Slice(t, 0, j);
    }
  }

  /** Cutting a text around one of its characters. */
  lemma CutAt(s: string, i: int, c: char)
    requires 0 <= i < |s| && s[i] == c
    ensures s == s[..i] + [c] + s[i + 1..]
  {
  }

  /** `line.split(':', 2)` read as `[kv[0], kv[1]]`: the text before the
      first colon, and the text between the first and the second colon
      (to the end when there is no second one) or `undefined` when the
      line has no colon. */
  function SplitColon(line: string): (kv: (string, Option<string>))
    ensures ':' !in kv.0
    ensures ':' !in line ==> kv == (line, None)
    ensures ':' in line ==> kv.1.Some? && ':' !in kv.1.value && |kv.0| + 1 + |kv.1.value| <= |line|
    ensures ':' in line ==> line[..|kv.0| + 1 + |kv.1.value|] == kv.0 + ":" + kv.1.value
    ensures ':' in line && |kv.0| + 1 + |kv.1.value| < |line| ==> line[|kv.0| + 1 + |kv.1.value|] == ':'
  {
    var c := IndexOf(line, ':');
    if c == -1 then (line, None)
    else
      var rest := line[c + 1..];
      var d := IndexOf(rest, ':');
      var value := if d == -1 then rest else rest[..d];
      assert line[..c + 1 + |value|] == line[..c] + ":" + value;
      (line[..c], Some(value))
  }

  /** A line `key:value` whose key and value hold no colon splits back
      into exactly that key and value. */
  lemma SplitColonPair(key: string, value: string)
    requires ':' !in key && ':' !in value
    ensures SplitColon(key + ":" + value) == (key, Some(value))
  {
    var line := key + ":" + value;
    var c := IndexOf(line, ':');
    assert line[|key|] == ':';
    assert line[..|key|] == key;
    assert c == |key|;
    assert line[c + 1..] == value;
  }

  function LowerChar(c: char): char
  {
    if 'A' <= c <= 'Z' then (c as int + 32) as char else c
  }

  /** `s.toLowerCase()` on the ASCII letters. No other character lowers to
      a letter of `content-length`, the one string it is compared with. */
  function ToLowerCase(s: string): (r: string)
    ensures |r| == |s|
    ensures forall i :: 0 <= i < |s| ==> r[i] == LowerChar(s[i])
  {
    seq(|s|, i requires 0 <= i < |s| => LowerChar(s[i]))
  }

  /** `key.toLowerCase() == 'content-length'`. */
  predicate IsContentLengthKey(key: string)
  {
    ToLowerCase(key) == "content-length"
  }

  predicate IsDigit(c: char)
  {
    '0' <= c <= '9'
  }

  /** The longest prefix of `s` made of decimal digits. */
  function DigitPrefix(s: string): (r: string)
    ensures |r| <= |s| && r == s[..|r|]
    ensures forall i :: 0 <= i < |r| ==> IsDigit(r[i])
    ensures |r| < |s| ==> !IsDigit(s[|r|])
  {
    if s == [] || !IsDigit(s[0]) then ""
    else
      var t := DigitPrefix(s[1..]);
      assert [s[0]] + t == s[..|t| + 1];
      [s[0]] + t
  }

  /** The value of a string of decimal digits. */
  function DigitsValue(ds: string): nat
    requires forall i :: 0 <= i < |ds| ==> IsDigit(ds[i])
  {
    if ds == [] then 0
    else
      assert IsDigit(ds[|ds| - 1]);
      DigitsValue(ds[..|ds| - 1]) * 10 + (ds[|ds| - 1] as int - '0' as int)
  }

  /** `parseInt(v)` where `v` is a string or `undefined` (None): the value
      of the leading run of decimal digits, NaN when there is none. */
  function ParseInt(v: Option<string>): (r: Number)
    ensures r.Num? <==> v.Some? && |v.value| > 0 && IsDigit(v.value[0])
    ensures r.Num? ==> r.value >= 0
  {
    match v
    case None => NaN
    case Some(s) =>
      var ds := DigitPrefix(s);
      if ds == "" then NaN else Num(DigitsValue(ds))
  }

  function DigitChar(d: nat): (c: char)
    requires d < 10
    ensures IsDigit(c)
  {
    ('0' as int + d) as char
  }

  /** The decimal rendering JavaScript gives a non-negative integer. */
  function NatToString(n: nat): (r: string)
    ensures |r| > 0
    ensures forall i :: 0 <= i < |r| ==> IsDigit(r[i])
    decreases n
  {
    if n < 10 then [DigitChar(n)] else NatToString(n / 10) + [DigitChar(n % 10)]
  }

  lemma {:induction false} DigitsValueOfNatToString(n: nat)
    ensures DigitsValue(NatToString(n)) == n
    decreases n
  {
    var s := NatToString(n);
    if n >= 10 {
      DigitsValueOfNatToString(n / 10);
      assert s[..|s| - 1] == NatToString(n / 10);
    }
  }

  /** `parseInt` reads back the decimal rendering of every length. */
  lemma ParseIntOfNatToString(n: nat)
    ensures ParseInt(Some(NatToString(n))) == Num(n)
  {
    var s := NatToString(n);
    var ds := DigitPrefix(s);
    assert ds == s;
    DigitsValueOfNatToString(n);
  }
}
