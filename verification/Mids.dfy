/**
  Message ids, "sender:recipient:timestamp_ms". The client prints them, the
  server parses them, and "mid:ciphertext" is the text whose hash is anchored.
 */
module Mids {
  import opened Words

  datatype Mid = Mid(sender: string, recipient: string, timestamp: int)

  predicate IsUsernameChar(c: char)
  {
    'a' <= c <= 'z' || 'A' <= c <= 'Z' || '0' <= c <= '9' || c == '_' || c == '.' || c == '-'
  }

  /** The schema pattern every session and every frame recipient satisfies. */
  predicate IsUsername(s: string)
  {
    1 <= |s| <= 64 && forall i :: 0 <= i < |s| ==> IsUsernameChar(s[i])
  }

  // ----- colons

  function Colons(s: string): nat
  {
    if s == [] then 0 else (if s[0] == ':' then 1 else 0) + Colons(s[1..])
  }

  lemma {:induction false} ColonsConcat(a: string, b: string)
    ensures Colons(a + b) == Colons(a) + Colons(b)
  {
    if a == [] {
      assert a + b == b;
    } else {
      ColonsConcat(a[1..], b);
      assert (a + b)[1..] == a[1..] + b;
    }
  }

  lemma {:induction false} NoColons(s: string)
    ensures Colons(s) == 0 <==> ':' !in s
  {
    if s != [] {
      NoColons(s[1..]);
      assert s == [s[0]] + s[1..];
    }
  }

  /** Python's `split(":")`. */
  function Split(s: string): (parts: seq<string>)
    ensures parts != []
  {
    if s == [] then [[]]
    else
      var rest := Split(s[1..]);
      if s[0] == ':' then [[]] + rest else [[s[0]] + rest[0]] + rest[1..]
  }

  lemma {:induction false} SplitCounts(s: string)
    ensures |Split(s)| == Colons(s) + 1
  {
    if s != [] { SplitCounts(s[1..]); }
  }

  lemma {:induction false} SplitAtColon(a: string, b: string)
    requires ':' !in a
    ensures Split(a + ":" + b) == [a] + Split(b)
  {
    var s := a + ":" + b;
    if a == [] {
      assert s == ":" + b && s[1..] == b;
    } else {
      assert s[1..] == a[1..] + ":" + b;
      SplitAtColon(a[1..], b);
      assert a == [a[0]] + a[1..];
    }
  }

  lemma {:induction false} SplitNoColon(a: string)
    requires ':' !in a
    ensures Split(a) == [a]
  {
    if a != [] {
      SplitNoColon(a[1..]);
      assert a == [a[0]] + a[1..];
    }
  }

  function Join(parts: seq<string>): string
    requires parts != []
  {
    if |parts| == 1 then parts[0] else parts[0] + ":" + Join(parts[1..])
  }

  /** Splitting loses nothing and leaves no colon in any part. */
  lemma {:induction false} SplitJoins(s: string)
    ensures Join(Split(s)) == s && forall i :: 0 <= i < |Split(s)| ==> ':' !in Split(s)[i]
  {
    if s != [] {
      var rest, parts := Split(s[1..]), Split(s);
      SplitJoins(s[1..]);
      assert s == [s[0]] + s[1..];
      if s[0] == ':' {
        assert parts[1..] == rest && parts[0] == [];
      } else {
        assert parts[1..] == rest[1..] && parts[0] == [s[0]] + rest[0];
      }
    }
  }

  // ----- decimal numbers

  predicate IsDigit(c: char) { '0' <= c <= '9' }
  predicate IsSpace(c: char) { c == ' ' || '\t' <= c <= '\r' || '\U{1C}' <= c <= '\U{1F}' }

  function StripLeft(s: string): string
  {
    if s != [] && IsSpace(s[0]) then StripLeft(s[1..]) else s
  }

  function StripRight(s: string): string
  {
    if s != [] && IsSpace(s[|s| - 1]) then StripRight(s[..|s| - 1]) else s
  }

  /** Digits, with single underscores allowed between them. */
  function ParseDigits(s: string, acc: int): Option<int>
    decreases |s|
  {
    if s == [] || !IsDigit(s[0]) then None
    else
      var n := 10 * acc + (s[0] as int - '0' as int);
      if |s| == 1 then Some(n)
      else if s[1] == '_' then ParseDigits(s[2..], n)
      else ParseDigits(s[1..], n)
  }

  /** Python's `int(text)` on ASCII text; None where it raises. */
  function ParseInt(s: string): Option<int>
  {
    var t := StripRight(StripLeft(s));
    if t != [] && t[0] == '+' then ParseDigits(t[1..], 0)
    else if t != [] && t[0] == '-' then
      match ParseDigits(t[1..], 0)
      case Some(n) => Some(-n)
      case None => None
    else ParseDigits(t, 0)
  }

  /** `std::to_string` of a non-negative number. */
  function PrintNat(n: nat): (s: string)
    ensures s != [] && forall i :: 0 <= i < |s| ==> IsDigit(s[i])
  {
    var d := ['0' + (n % 10) as char];
    if n < 10 then d else PrintNat(n / 10) + d
  }

  function PrintInt(n: int): string
  {
    if n < 0 then "-" + PrintNat(-n) else PrintNat(n)
  }

  function Value(s: string, acc: int): int
    decreases |s|
  {
    if s == [] then acc else Value(s[1..], 10 * acc + (s[0] as int - '0' as int))
  }

  lemma {:induction false} ParseDigitsValue(s: string, acc: int)
    requires s != [] && forall i :: 0 <= i < |s| ==> IsDigit(s[i])
    ensures ParseDigits(s, acc) == Some(Value(s, acc))
    decreases |s|
  {
    if |s| > 1 {
      assert s[1] != '_';
      ParseDigitsValue(s[1..], 10 * acc + (s[0] as int - '0' as int));
    }
  }

  lemma {:induction false} ValueSnoc(s: string, c: char, acc: int)
    ensures Value(s + [c], acc) == 10 * Value(s, acc) + (c as int - '0' as int)
    decreases |s|
  {
    if s == [] {
      assert s + [c] == [c];
    } else {
      assert (s + [c])[1..] == s[1..] + [c];
      ValueSnoc(s[1..], c, 10 * acc + (s[0] as int - '0' as int));
    }
  }

  lemma {:induction false} PrintNatValue(n: nat)
    ensures Value(PrintNat(n), 0) == n
  {
    var d := '0' + (n % 10) as char;
    if n < 10 {
      assert PrintNat(n) == [] + [d];
      ValueSnoc([], d, 0);
    } else {
      PrintNatValue(n / 10);
      ValueSnoc(PrintNat(n / 10), d, 0);
    }
  }

  lemma PrintParse(n: int)
    ensures ParseInt(PrintInt(n)) == Some(n)
    ensures ':' !in PrintInt(n)
  {
    var m := if n < 0 then -n else n;
    var s := PrintInt(n);
    PrintNatValue(m);
    ParseDigitsValue(PrintNat(m), 0);
    assert !IsSpace(s[0]) && !IsSpace(s[|s| - 1]);
    assert StripRight(StripLeft(s)) == s;
    if n < 0 { assert s[1..] == PrintNat(m); }
  }

  // ----- which texts are numbers, and which number they are

  predicate AllSpaces(s: string) { forall i :: 0 <= i < |s| ==> IsSpace(s[i]) }

  /** Digits, and underscores each between two digits. */
  predicate IsNumeral(d: string) { d != [] && forall i :: 0 <= i < |d| ==> Belongs(d, i) }

  predicate Belongs(d: string, i: nat)
    requires i < |d|
  {
    IsDigit(d[i]) || (d[i] == '_' && 0 < i < |d| - 1 && IsDigit(d[i - 1]) && IsDigit(d[i + 1]))
  }

  function Plain(d: string): string
  {
    if d == [] then [] else (if d[0] == '_' then [] else [d[0]]) + Plain(d[1..])
  }

  lemma NumeralTail(d: string)
    requires |d| > 1 && IsDigit(d[0])
    ensures d[1] != '_' ==> (IsNumeral(d) <==> IsNumeral(d[1..]))
    ensures d[1] == '_' ==> (IsNumeral(d) <==> IsNumeral(d[2..]))
  {
    if d[1] != '_' {
      DropDigits(d, 1);
    } else {
      DropDigits(d, 2);
      assert Belongs(d, 1) <==> |d| > 2 && IsDigit(d[2]);
    }
  }

  /** What a numeral's first digit, or first digit and underscore, are followed by is a numeral, and conversely. */
  lemma DropDigits(d: string, k: nat)
    requires 1 <= k <= |d| && IsDigit(d[0]) && k <= 2 && (k == 2 ==> d[1] == '_')
    requires k == 1 ==> |d| > 1 && d[1] != '_'
    ensures IsNumeral(d) ==> IsNumeral(d[k..])
    ensures IsNumeral(d[k..]) ==> IsNumeral(d)
  {
    var e := d[k..];
    assert forall i :: k <= i < |d| ==> d[i] == e[i - k];
    if IsNumeral(d) {
      assert Belongs(d, 0) && Belongs(d, 1);
      forall i | 0 <= i < |e| ensures Belongs(e, i) { assert Belongs(d, i + k); }
    }
    if IsNumeral(e) {
      assert Belongs(e, 0);
      forall i | 0 <= i < |d| ensures Belongs(d, i) {
        if i >= k { assert Belongs(e, i - k); }
      }
    }
  }

  lemma {:induction false} ParseDigitsExactly(s: string, acc: int)
    ensures ParseDigits(s, acc) == if IsNumeral(s) then Some(Value(Plain(s), acc)) else None
    decreases |s|
  {
    hide IsNumeral;
    if s == [] || !IsDigit(s[0]) {
      NotNumeral(s);
    } else {
      var n := 10 * acc + (s[0] as int - '0' as int);
      assert Plain(s)[1..] == Plain(s[1..]);
      if |s| == 1 {
        OneDigit(s);
      } else {
        NumeralTail(s);
        if s[1] == '_' {
          assert Plain(s[1..]) == Plain(s[2..]) by { assert s[1..][1..] == s[2..]; }
          ParseDigitsExactly(s[2..], n);
        } else {
          ParseDigitsExactly(s[1..], n);
        }
      }
    }
  }

  lemma NotNumeral(s: string)
    requires s == [] || !IsDigit(s[0])
    ensures !IsNumeral(s)
  {
    assert s != [] ==> !Belongs(s, 0);
  }

  lemma OneDigit(s: string)
    requires |s| == 1 && IsDigit(s[0])
    ensures IsNumeral(s) && Plain(s) == s
  {
    assert s[1..] == [];
  }

  lemma {:induction false} StripLeftParts(s: string) returns (a: string)
    ensures s == a + StripLeft(s) && AllSpaces(a)
    ensures StripLeft(s) != [] ==> !IsSpace(StripLeft(s)[0])
  {
    if s != [] && IsSpace(s[0]) {
      var b := StripLeftParts(s[1..]);
      a := [s[0]] + b;
      assert s == [s[0]] + s[1..];
    } else {
      a := [];
    }
  }

  lemma {:induction false} StripRightParts(s: string) returns (b: string)
    ensures s == StripRight(s) + b && AllSpaces(b)
    decreases |s|
  {
    if s != [] && IsSpace(s[|s| - 1]) {
      var c := StripRightParts(s[..|s| - 1]);
      b := c + [s[|s| - 1]];
      assert s == s[..|s| - 1] + [s[|s| - 1]];
    } else {
      b := [];
    }
  }

  lemma {:induction false} StripLeftOf(a: string, s: string)
    requires AllSpaces(a) && (s == [] || !IsSpace(s[0]))
    ensures StripLeft(a + s) == s
  {
    if a == [] {
      assert a + s == s;
    } else {
      assert (a + s)[1..] == a[1..] + s;
      StripLeftOf(a[1..], s);
    }
  }

  lemma {:induction false} StripRightOf(s: string, b: string)
    requires AllSpaces(b) && (s == [] || !IsSpace(s[|s| - 1]))
    ensures StripRight(s + b) == s
    decreases |b|
  {
    if b == [] {
      assert s + b == s;
    } else {
      var w := s + b;
      assert w[..|w| - 1] == s + b[..|b| - 1];
      StripRightOf(s, b[..|b| - 1]);
    }
  }

  /** Spaces, a sign or none, a numeral, spaces. */
  ghost predicate Writes(s: string, n: int, a: string, sign: string, d: string, b: string)
  {
    && s == a + sign + d + b && AllSpaces(a) && AllSpaces(b) && IsNumeral(d)
    && (sign == "" || sign == "+" || sign == "-")
    && n == (if sign == "-" then -Value(Plain(d), 0) else Value(Plain(d), 0))
  }

  lemma NumeralEnds(d: string)
    requires IsNumeral(d)
    ensures !IsSpace(d[0]) && !IsSpace(d[|d| - 1]) && d[0] != '+' && d[0] != '-'
  {
    assert Belongs(d, 0) && Belongs(d, |d| - 1);
  }

  lemma SignedEnds(sign: string, d: string)
    requires IsNumeral(d) && (sign == "" || sign == "+" || sign == "-")
    ensures var core := sign + d;
            && core != [] && !IsSpace(core[0]) && !IsSpace(core[|core| - 1])
            && (sign == "" ==> core == d && core[0] != '+' && core[0] != '-')
            && (sign != "" ==> core[0] == sign[0] && core[1..] == d)
  {
    NumeralEnds(d);
  }

  lemma Strips(a: string, core: string, b: string)
    requires AllSpaces(a) && AllSpaces(b) && core != [] && !IsSpace(core[0]) && !IsSpace(core[|core| - 1])
    ensures StripRight(StripLeft(a + core + b)) == core
  {
    hide StripLeft, StripRight, IsSpace;
    assert a + core + b == a + (core + b);
    StripLeftOf(a, core + b);
    StripRightOf(core, b);
  }

  lemma WritesParses(s: string, n: int, a: string, sign: string, d: string, b: string)
    requires Writes(s, n, a, sign, d, b)
    ensures ParseInt(s) == Some(n)
  {
    hide IsNumeral, StripLeft, StripRight, Value, Plain, ParseDigits, IsSpace, AllSpaces;
    var core := sign + d;
    SignedEnds(sign, d);
    assert s == a + core + b;
    Strips(a, core, b);
    ParseDigitsExactly(d, 0);
  }

  lemma ParsesWrites(s: string)
    requires ParseInt(s).Some?
    ensures exists a, sign, d, b :: Writes(s, ParseInt(s).value, a, sign, d, b)
  {
    hide IsNumeral, StripLeft, StripRight, Value, Plain, ParseDigits;
    var a := StripLeftParts(s);
    var b := StripRightParts(StripLeft(s));
    var t := StripRight(StripLeft(s));
    assert s == a + t + b;
    if t != [] && (t[0] == '+' || t[0] == '-') {
      ParseDigitsExactly(t[1..], 0);
      assert t == t[..1] + t[1..] && t[..1] == [t[0]];
      assert s == a + t[..1] + t[1..] + b;
      assert Writes(s, ParseInt(s).value, a, t[..1], t[1..], b);
    } else {
      ParseDigitsExactly(t, 0);
      assert s == a + "" + t + b;
      assert Writes(s, ParseInt(s).value, a, "", t, b);
    }
  }

  /** Python's int() accepts exactly these texts, and gives them this value. */
  lemma ParseIntExactly(s: string, n: int)
    ensures ParseInt(s) == Some(n) <==> exists a, sign, d, b :: Writes(s, n, a, sign, d, b)
  {
    hide ParseInt, Writes;
    if ParseInt(s) == Some(n) { ParsesWrites(s); }
    if a, sign, d, b :| Writes(s, n, a, sign, d, b) { WritesParses(s, n, a, sign, d, b); }
  }

  // ----- message ids

  /** Datetimes of years 1 to 9999, in milliseconds: outside them `fromtimestamp` raises. */
  const MIN_TIMESTAMP := -62135596800000
  const MAX_TIMESTAMP := 253402300799999

  function ParseMid(mid: string): Option<Mid>
  {
    var parts := Split(mid);
    if |parts| != 3 then None
    else
      match ParseInt(parts[2])
      case None => None
      case Some(ts) => if MIN_TIMESTAMP <= ts <= MAX_TIMESTAMP then Some(Mid(parts[0], parts[1], ts)) else None
  }

  /** A mid is three colon-free parts, the last of them a number within the calendar; and nothing else parses. */
  lemma ParseMidExactly(mid: string, m: Mid)
    ensures ParseMid(mid) == Some(m) <==>
            exists t :: && mid == m.sender + ":" + m.recipient + ":" + t
                        && ':' !in m.sender && ':' !in m.recipient && ':' !in t
                        && ParseInt(t) == Some(m.timestamp) && MIN_TIMESTAMP <= m.timestamp <= MAX_TIMESTAMP
  {
    hide Split, ParseInt;
    if ParseMid(mid) == Some(m) {
      var parts := Split(mid);
      SplitJoins(mid);
      assert Join(parts) == parts[0] + ":" + Join(parts[1..]);
      assert Join(parts[1..]) == parts[1] + ":" + parts[2];
      assert mid == m.sender + ":" + m.recipient + ":" + parts[2];
    }
    if t :| && mid == m.sender + ":" + m.recipient + ":" + t
            && ':' !in m.sender && ':' !in m.recipient && ':' !in t
            && ParseInt(t) == Some(m.timestamp) && MIN_TIMESTAMP <= m.timestamp <= MAX_TIMESTAMP
    {
      assert mid == m.sender + ":" + (m.recipient + ":" + t);
      SplitAtColon(m.sender, m.recipient + ":" + t);
      SplitAtColon(m.recipient, t);
      SplitNoColon(t);
    }
  }

  function NewMid(user: string, recipient: string, nowMs: int): string
  {
    user + ":" + recipient + ":" + PrintInt(nowMs)
  }

  lemma ParsedMidHasTwoColons(mid: string)
    requires ParseMid(mid).Some?
    ensures Colons(mid) == 2
  {
    SplitCounts(mid);
  }

  /** Round trip: the server reads back exactly what the client printed. */
  lemma NewMidParses(user: string, recipient: string, nowMs: int)
    requires IsUsername(user) && IsUsername(recipient) && MIN_TIMESTAMP <= nowMs <= MAX_TIMESTAMP
    ensures ParseMid(NewMid(user, recipient, nowMs)) == Some(Mid(user, recipient, nowMs))
  {
    var ts := PrintInt(nowMs);
    PrintParse(nowMs);
    assert NewMid(user, recipient, nowMs) == user + ":" + (recipient + ":" + ts);
    SplitAtColon(user, recipient + ":" + ts);
    SplitAtColon(recipient, ts);
    SplitNoColon(ts);
  }

  function Preimage(mid: string, ciphertext: string): string
  {
    mid + ":" + ciphertext
  }

  lemma {:induction false} ColonAt(s: string, k: nat)
    requires k < |s| && s[k] == ':'
    ensures Colons(s) > Colons(s[..k])
  {
    ColonsConcat(s[..k], s[k..]);
    assert s[..k] + s[k..] == s;
  }

  lemma MidNotLonger(m: string, c: string, n: string, d: string)
    requires Colons(m) == Colons(n) && Preimage(m, c) == Preimage(n, d)
    ensures |n| <= |m|
  {
    var w := Preimage(m, c);
    assert w == Preimage(n, d);
    if |m| < |n| {
      assert m == w[..|m|] == n[..|m|] && n[|m|] == w[|m|] == ':';
      ColonAt(n, |m|);
    }
  }

  /** The anchored text determines both halves, although a ciphertext may contain colons. */
  lemma PreimageUnambiguous(m: string, c: string, n: string, d: string)
    requires ParseMid(m).Some? && ParseMid(n).Some? && Preimage(m, c) == Preimage(n, d)
    ensures m == n && c == d
  {
    ParsedMidHasTwoColons(m);
    ParsedMidHasTwoColons(n);
    MidNotLonger(m, c, n, d);
    MidNotLonger(n, d, m, c);
    var w := Preimage(m, c);
    assert m == w[..|m|] && n == w[..|n|];
    assert c == w[|m| + 1..] && d == w[|n| + 1..];
  }
}
