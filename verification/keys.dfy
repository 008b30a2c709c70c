/** The cache key of a chunk coordinate: `chunkIndex` joins the coordinate's
    integers, written in decimal, with '|' (index.js:39-41). The whole cache
    relies on this being injective; it is proved here by giving the encoding an
    inverse (split on '|', parse each part). */
module Keys {

  /** The decimal digit character of 0 <= d < 10. */
  function DigitChar(d: int): (c: char)
    requires 0 <= d < 10
    ensures '0' <= c <= '9'
  {
    ('0' as int + d) as char
  }

  /** The value of a digit character; anything else reads as 0. */
  function DigitValue(c: char): int
  {
    if '0' <= c <= '9' then c as int - '0' as int else 0
  }

  predicate AllDigits(s: string)
  {
    forall i :: 0 <= i < |s| ==> '0' <= s[i] <= '9'
  }

  /** JavaScript's String(n) for a non-negative integer: its decimal digits,
      most significant first, no leading zero. */
  function NatText(n: nat): (s: string)
    ensures |s| >= 1 && AllDigits(s)
    decreases n
  {
    if n < 10 then [DigitChar(n)] else NatText(n / 10) + [DigitChar(n % 10)]
  }

  /** Reads a string of digits back as a number (the inverse of NatText). */
  function ParseNat(s: string): nat
    decreases |s|
  {
    if s == [] then 0 else 10 * ParseNat(s[..|s| - 1]) + DigitValue(s[|s| - 1])
  }

  lemma {:induction false} ParseNatText(n: nat)
    ensures ParseNat(NatText(n)) == n
    decreases n
  {
    var s := NatText(n);
    if n >= 10 {
      ParseNatText(n / 10);
      assert s[..|s| - 1] == NatText(n / 10);
      assert DigitValue(s[|s| - 1]) == n % 10;
    }
  }

  /** JavaScript's String(i) for an integer: a '-' sign for negatives. */
  function IntText(i: int): (s: string)
    ensures |s| >= 1 && '|' !in s
  {
    if i < 0 then "-" + NatText(-i) else NatText(i)
  }

  function ParseInt(s: string): int
  {
    if |s| > 0 && s[0] == '-' then 0 - ParseNat(s[1..]) else ParseNat(s)
  }

  lemma ParseIntText(i: int)
    ensures ParseInt(IntText(i)) == i
  {
    if i < 0 {
      var t := NatText(-i);
      var s := "-" + t;
      assert s[0] == '-' && s[1..] == t;
      assert ParseInt(s) == 0 - ParseNat(t);
      ParseNatText(-i);
      assert IntText(i) == s;
    } else {
      var t := NatText(i);
      assert '0' <= t[0] <= '9';
      assert ParseInt(t) == ParseNat(t);
      ParseNatText(i);
      assert IntText(i) == t;
    }
  }

  /** Array.prototype.join: the parts separated by '|'; [] joins to "". */
  function Join(parts: seq<string>): string
    decreases |parts|
  {
    if |parts| == 0 then ""
    else if |parts| == 1 then parts[0]
    else parts[0] + "|" + Join(parts[1..])
  }

  /** `chunkIndex(position)`: the key under which a chunk coordinate is cached. */
  function Key(position: seq<int>): string
  {
    Join(Texts(position))
  }

  function Texts(position: seq<int>): (parts: seq<string>)
    ensures |parts| == |position|
    ensures forall i :: 0 <= i < |parts| ==> parts[i] == IntText(position[i])
  {
    seq(|position|, i requires 0 <= i < |position| => IntText(position[i]))
  }

  /** String.prototype.split('|'): every maximal '|'-free run, in order. */
  function Split(s: string): (parts: seq<string>)
    ensures |parts| >= 1
    decreases |s|
  {
    if |s| == 0 then [""]
    else
      var rest := Split(s[1..]);
      if s[0] == '|' then [""] + rest else [[s[0]] + rest[0]] + rest[1..]
  }

  /** Decodes a key back into the coordinate it was made from. */
  function Unkey(k: string): seq<int>
  {
    if k == "" then [] else
      var parts := Split(k);
      seq(|parts|, i requires 0 <= i < |parts| => ParseInt(parts[i]))
  }

  lemma {:induction false} SplitPlain(x: string)
    requires '|' !in x
    ensures Split(x) == [x]
    decreases |x|
  {
    if |x| > 0 {
      SplitPlain(x[1..]);
      assert [x[0]] + x[1..] == x;
    }
  }

  lemma {:induction false} SplitJoined(x: string, t: string)
    requires '|' !in x
    ensures Split(x + "|" + t) == [x] + Split(t)
    decreases |x|
  {
    var s := x + "|" + t;
    if |x| == 0 {
      assert s[1..] == t;
    } else {
      assert s[1..] == x[1..] + "|" + t;
      SplitJoined(x[1..], t);
      assert [x[0]] + x[1..] == x;
    }
  }

  lemma {:induction false} SplitJoin(parts: seq<string>)
    requires |parts| >= 1
    requires forall i :: 0 <= i < |parts| ==> '|' !in parts[i]
    ensures Split(Join(parts)) == parts
    decreases |parts|
  {
    if |parts| == 1 {
      SplitPlain(parts[0]);
    } else {
      SplitJoinedRest(parts);
    }
  }

  lemma {:induction false} SplitJoinedRest(parts: seq<string>)
    requires |parts| >= 2
    requires forall i :: 0 <= i < |parts| ==> '|' !in parts[i]
    ensures Split(Join(parts)) == parts
    decreases |parts|, 0
  {
    SplitJoined(parts[0], Join(parts[1..]));
    SplitJoin(parts[1..]);
    assert [parts[0]] + parts[1..] == parts;
  }

  /** Decoding a key gives back the coordinate: the encoding loses nothing. */
  lemma UnkeyKey(position: seq<int>)
    ensures Unkey(Key(position)) == position
  {
    var parts := Texts(position);
    if |position| > 0 {
      assert Key(position) != "" by {
        JoinNonEmpty(parts);
      }
      SplitJoin(parts);
      forall i | 0 <= i < |position|
        ensures ParseInt(parts[i]) == position[i]
      {
        ParseIntText(position[i]);
      }
    }
  }

  lemma {:induction false} JoinNonEmpty(parts: seq<string>)
    requires |parts| >= 1 && |parts[0]| >= 1
    ensures |Join(parts)| >= 1
  {
  }

  /** Two chunk coordinates share a cache slot exactly when they are equal. */
  lemma KeyInjective(p: seq<int>, q: seq<int>)
    ensures Key(p) == Key(q) <==> p == q
  {
    UnkeyKey(p);
    UnkeyKey(q);
  }
}
