/** Strings, options, lower-case hexadecimal and the library functions the agent calls but does not define. */
module Text {

  datatype Option<+T> = None | Some(value: T)

  /** Functions of other libraries, taken as they are: any choice of them is allowed.
      Regular expressions are handed over already anchored (`^(?:p)$`). */
  datatype Library = Library(
    regexCompiles: string -> bool,
    regexMatches: (string, string) -> bool,
    isPrintBeyondAscii: char -> bool,
    isWordBeyondAscii: char -> bool)

  predicate HasSuffix(s: string, suffix: string) {
    |suffix| <= |s| && s[|s| - |suffix|..] == suffix
  }

  // ----- joining and splitting -----

  /** Where `c` first occurs in `s`, or |s|. */
  function IndexOf(s: string, c: char): (k: nat)
    ensures k <= |s| && c !in s[..k] && (k < |s| ==> s[k] == c)
  {
    if s == [] || s[0] == c then 0
    else
      var k := 1 + IndexOf(s[1..], c);
      assert s[..k] == [s[0]] + s[1..][..k - 1];
      k
  }

  function Join(parts: seq<string>, sep: char): string {
    if parts == [] then ""
    else if |parts| == 1 then parts[0]
    else parts[0] + [sep] + Join(parts[1..], sep)
  }

  lemma {:induction false} SeparatorAt(a: string, sep: char, x: string)
    requires sep !in a
    ensures (a + [sep] + x)[|a|] == sep
    ensures forall i | 0 <= i < |a| :: (a + [sep] + x)[i] != sep
    ensures (a + [sep] + x)[..|a|] == a && (a + [sep] + x)[|a| + 1..] == x
  {
  }

  /** The separator that ends a separator-free prefix is found in only one place. */
  lemma {:induction false} SplitUnique(a: string, b: string, sep: char, x: string, y: string)
    requires sep !in a && sep !in b
    requires a + [sep] + x == b + [sep] + y
    ensures a == b && x == y
  {
    SeparatorAt(a, sep, x);
    SeparatorAt(b, sep, y);
    assert |a| == |b|;
  }

  lemma {:induction false} SeparatorShows(parts: seq<string>, sep: char)
    requires parts != []
    requires forall p | p in parts :: sep !in p
    ensures sep in Join(parts, sep) <==> |parts| > 1
  {
    if |parts| > 1 {
      SeparatorAt(parts[0], sep, Join(parts[1..], sep));
    }
  }

  /** Joining is injective on non-empty lists whose parts do not contain the separator. */
  lemma {:induction false} JoinInjective(a: seq<string>, b: seq<string>, sep: char)
    requires a != [] && b != []
    requires forall p | p in a :: sep !in p
    requires forall p | p in b :: sep !in p
    requires Join(a, sep) == Join(b, sep)
    ensures a == b
  {
    SeparatorShows(a, sep);
    SeparatorShows(b, sep);
    assert a == [a[0]] + a[1..] && b == [b[0]] + b[1..];
    if |a| > 1 {
      SplitUnique(a[0], b[0], sep, Join(a[1..], sep), Join(b[1..], sep));
      JoinInjective(a[1..], b[1..], sep);
    }
  }

  ghost predicate FreeOf(parts: seq<string>, sep: char) {
    forall p | p in parts :: sep !in p
  }

  /** The text cut at every separator. */
  function Split(s: string, sep: char): (parts: seq<string>)
    ensures parts != [] && FreeOf(parts, sep) && Join(parts, sep) == s
  {
    var k := IndexOf(s, sep);
    if k == |s| then
      assert s[..k] == s;
      [s]
    else
      var rest := Split(s[k + 1..], sep);
      assert s == s[..k] + [sep] + s[k + 1..];
      assert ([s[..k]] + rest)[1..] == rest;
      [s[..k]] + rest
  }

  /** Another list with the same joined text. */
  ghost predicate Twin(q: seq<string>, parts: seq<string>, sep: char) {
    q != [] && q != parts && Join(q, sep) == Join(parts, sep)
  }

  /** A list can be mistaken, once joined, for one whose parts are free of the separator exactly when its own parts are
      not. */
  lemma {:induction false} FreeTwinIff(parts: seq<string>, sep: char)
    requires parts != []
    ensures (exists q :: Twin(q, parts, sep) && FreeOf(q, sep)) <==> !FreeOf(parts, sep)
  {
    if FreeOf(parts, sep) {
      forall q | Twin(q, parts, sep) && FreeOf(q, sep) ensures false {
        JoinInjective(q, parts, sep);
      }
    } else {
      assert Twin(Split(Join(parts, sep), sep), parts, sep);
    }
  }

  lemma {:induction false} JoinMerge(a: string, b: string, rest: seq<string>, sep: char)
    ensures Join([a + [sep] + b] + rest, sep) == Join([a, b] + rest, sep)
  {
    assert ([a, b] + rest)[1..] == [b] + rest && ([a + [sep] + b] + rest)[1..] == rest;
    assert ([b] + rest)[1..] == rest;
    if rest != [] {
      var tail := Join(rest, sep);
      assert a + [sep] + b + [sep] + tail == a + [sep] + (b + [sep] + tail);
    } else {
      assert Join([b] + rest, sep) == b;
    }
  }

  lemma {:induction false} SeparatorIn(parts: seq<string>, sep: char)
    requires |parts| > 1
    ensures sep in Join(parts, sep)
  {
    assert Join(parts, sep)[|parts[0]|] == sep;
  }

  /** A joined list can be mistaken for another one at all exactly when the joined text contains the separator: when it
      has two parts, or a part that contains it. */
  lemma {:induction false} JoinAmbiguousIff(parts: seq<string>, sep: char)
    requires parts != []
    ensures (exists q :: Twin(q, parts, sep)) <==> |parts| > 1 || sep in parts[0]
  {
    var whole := Join(parts, sep);
    if |parts| > 1 {
      assert Join([whole], sep) == whole;
      assert Twin([whole], parts, sep);
    } else if sep in parts[0] {
      assert parts[0] in parts;
      assert Twin(Split(whole, sep), parts, sep);
    } else {
      forall q | q != [] && Join(q, sep) == whole ensures q == parts {
        if |q| > 1 {
          SeparatorIn(q, sep);
        }
        assert parts == [parts[0]] && (|q| == 1 ==> q == [q[0]]);
      }
    }
  }

  /** A demand list as the caches expect it. */
  predicate NulFree(raw: seq<string>) {
    raw != [] && forall s | s in raw :: '\0' !in s
  }

  // ----- lower-case hexadecimal (section 8 of RFC 4648) -----

  type Byte = b: int | 0 <= b < 256

  function HexDigit(n: int): char
    requires 0 <= n < 16
  {
    if n < 10 then '0' + n as char else 'a' + (n - 10) as char
  }

  /** The value of a hexadecimal digit of either case. */
  function Unhex(c: char): (r: Option<int>)
    ensures r.Some? ==> 0 <= r.value < 16
  {
    if '0' <= c <= '9' then Some(c as int - '0' as int)
    else if 'a' <= c <= 'f' then Some(c as int - 'a' as int + 10)
    else if 'A' <= c <= 'F' then Some(c as int - 'A' as int + 10)
    else None
  }

  lemma {:induction false} UnhexHexDigit(n: int)
    requires 0 <= n < 16
    ensures Unhex(HexDigit(n)) == Some(n)
    ensures HexDigit(n) !in "\"\\\n`{},="
  {
  }

  function HexEncode(bytes: seq<Byte>): string {
    if bytes == [] then ""
    else [HexDigit(bytes[0] / 16), HexDigit(bytes[0] % 16)] + HexEncode(bytes[1..])
  }

  function HexDecode(s: string): Option<seq<Byte>> {
    if s == "" then Some([])
    else if |s| == 1 then None
    else
      var hi := Unhex(s[0]);
      var lo := Unhex(s[1]);
      var rest := HexDecode(s[2..]);
      if hi.Some? && lo.Some? && rest.Some? then Some([(hi.value * 16 + lo.value) as Byte] + rest.value) else None
  }

  lemma {:induction false} HexRoundTrip(bytes: seq<Byte>)
    ensures HexDecode(HexEncode(bytes)) == Some(bytes)
  {
    if bytes != [] {
      HexRoundTrip(bytes[1..]);
      UnhexHexDigit(bytes[0] / 16);
      UnhexHexDigit(bytes[0] % 16);
      assert HexEncode(bytes)[2..] == HexEncode(bytes[1..]);
      assert bytes == [bytes[0]] + bytes[1..];
    }
  }
}
