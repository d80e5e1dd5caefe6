/** String primitives of the two border-detail parsers. */
module Text {
  import opened Samples

  /** Unicode White_Space, the class of `split_whitespace` and `trim_end`. */
  predicate RustSpace(c: char) {
    || '\t' <= c <= '\r' || c == ' ' || c == '\U{85}' || c == '\U{A0}' || c == '\U{1680}'
    || '\U{2000}' <= c <= '\U{200A}' || c == '\U{2028}' || c == '\U{2029}' || c == '\U{202F}'
    || c == '\U{205F}' || c == '\U{3000}'
  }

  /** The class of `\s` and of `trim` in the page: no U+0085, but U+FEFF. */
  predicate PageSpace(c: char) {
    (RustSpace(c) && c != '\U{85}') || c == '\U{FEFF}'
  }

  predicate Clean(s: string, space: char -> bool) {
    forall i :: 0 <= i < |s| ==> !space(s[i])
  }

  // ── Words ───────────────────────────────────────────────────────────────────

  /** Length of the leading run of characters that are not spaces. */
  function WordEnd(s: string, space: char -> bool): (k: nat)
    ensures k <= |s| && Clean(s[..k], space) && (k < |s| ==> space(s[k]))
  {
    if s == "" || space(s[0]) then 0 else
      var k := WordEnd(s[1..], space);
      assert s[..k + 1] == [s[0]] + s[1..][..k];
      k + 1
  }

  /** The maximal runs of non-space characters. */
  function Words(s: string, space: char -> bool): seq<string>
    decreases |s|
  {
    if s == "" then [] else if space(s[0]) then Words(s[1..], space) else
      var k := WordEnd(s, space);
      [s[..k]] + Words(s[k..], space)
  }

  lemma {:induction false} WordEndOf(w: string, rest: string, space: char -> bool)
    requires Clean(w, space) && (rest != "" ==> space(rest[0]))
    ensures WordEnd(w + rest, space) == |w|
  {
    if w != "" {
      assert (w + rest)[1..] == w[1..] + rest;
      WordEndOf(w[1..], rest, space);
    } else {
      assert w + rest == rest;
    }
  }

  lemma WordEndChars(s: string, space: char -> bool)
    ensures forall j :: 0 <= j < WordEnd(s, space) ==> !space(s[j])
  {
    var k := WordEnd(s, space);
    forall j | 0 <= j < k
      ensures !space(s[j])
    {
      assert s[..k][j] == s[j];
    }
  }

  /** A leading word is the first of the words. */
  lemma FirstWord(w: string, rest: string, space: char -> bool)
    requires w != "" && Clean(w, space) && (rest != "" ==> space(rest[0]))
    ensures Words(w + rest, space) == [w] + Words(rest, space)
  {
    WordEndOf(w, rest, space);
    assert (w + rest)[..|w|] == w && (w + rest)[|w|..] == rest;
    assert (w + rest)[0] == w[0];
  }

  lemma SkipSpace(rest: string, space: char -> bool)
    requires space(' ')
    ensures Words(" " + rest, space) == Words(rest, space)
  {
    assert (" " + rest)[1..] == rest;
  }

  /** `key value`, with or without a leading space, is two words. */
  lemma TwoWords(key: string, value: string, space: char -> bool)
    requires space(' ') && key != "" && value != "" && Clean(key, space) && Clean(value, space)
    ensures Words(key + " " + value, space) == [key, value]
    ensures Words(" " + key + " " + value, space) == [key, value]
  {
    var tail := " " + value;
    assert key + " " + value == key + tail;
    FirstWord(key, tail, space);
    SkipSpace(value, space);
    FirstWord(value, "", space);
    assert value + "" == value;
    assert " " + key + " " + value == " " + (key + " " + value);
    SkipSpace(key + " " + value, space);
  }

  // ── Finding, splitting, trimming ────────────────────────────────────────────

  function IndexOf(s: string, c: char): (i: nat)
    ensures i <= |s| && c !in s[..i] && (i < |s| ==> s[i] == c)
  {
    if s == "" || s[0] == c then 0 else
      var k := IndexOf(s[1..], c);
      assert s[..k + 1] == [s[0]] + s[1..][..k];
      k + 1
  }

  function Split(s: string, c: char): seq<string>
    decreases |s|
  {
    var i := IndexOf(s, c);
    if i == |s| then [s] else [s[..i]] + Split(s[i + 1..], c)
  }

  lemma {:induction false} IndexOfAt(a: string, rest: string, c: char)
    requires c !in a
    ensures IndexOf(a + [c] + rest, c) == |a|
  {
    if a != "" {
      assert (a + [c] + rest)[1..] == a[1..] + [c] + rest;
      IndexOfAt(a[1..], rest, c);
    }
  }

  lemma SplitAt(a: string, rest: string, c: char)
    requires c !in a
    ensures Split(a + [c] + rest, c) == [a] + Split(rest, c)
  {
    var s := a + [c] + rest;
    IndexOfAt(a, rest, c);
    assert s[..|a|] == a && s[|a| + 1..] == rest;
  }

  lemma SplitNone(a: string, c: char)
    requires c !in a
    ensures Split(a, c) == [a]
  {
    assert IndexOf(a, c) == |a|;
  }

  /** Position of the last `c`, or the length when there is none. */
  function RFind(s: string, c: char): (i: nat)
    ensures i <= |s| && (i < |s| ==> s[i] == c && c !in s[i + 1..]) && (i == |s| ==> c !in s)
  {
    if s == "" then 0 else
      var last := |s| - 1;
      assert s == s[..last] + [s[last]];
      if s[last] == c then last else
        var i := RFind(s[..last], c);
        if i == last then |s| else
          assert s[i + 1..] == s[..last][i + 1..] + [s[last]];
          i
  }

  lemma {:induction false} RFindOf(a: string, rest: string, c: char)
    requires c !in rest
    ensures RFind(a + [c] + rest, c) == |a|
  {
    var s := a + [c] + rest;
    if rest == "" {
      assert s[|s| - 1] == c;
    } else {
      var init := rest[..|rest| - 1];
      assert s[..|s| - 1] == a + [c] + init;
      RFindOf(a, init, c);
    }
  }

  function TrimEnd(s: string, drop: char -> bool): string {
    if s != "" && drop(s[|s| - 1]) then TrimEnd(s[..|s| - 1], drop) else s
  }

  // ── Decimal numbers ─────────────────────────────────────────────────────────

  predicate Digit(c: char) { '0' <= c <= '9' }

  function Digits(n: nat): (s: string)
    ensures s != "" && forall i :: 0 <= i < |s| ==> Digit(s[i])
  {
    if n < 10 then [('0' as int + n) as char] else Digits(n / 10) + [('0' as int + n % 10) as char]
  }

  function Value(s: string): nat {
    if s == "" then 0 else
      var d := s[|s| - 1] as int - '0' as int;
      Value(s[..|s| - 1]) * 10 + (if d >= 0 then d else 0)
  }

  lemma {:induction false} ValueOfDigits(n: nat)
    ensures Value(Digits(n)) == n
  {
    if n < 10 {
      assert Digits(n)[..0] == "";
    } else {
      ValueOfDigits(n / 10);
      var s := Digits(n);
      assert s[..|s| - 1] == Digits(n / 10);
      assert s[|s| - 1] as int - '0' as int == n % 10;
    }
  }

  predicate NotDigit(c: char) { !Digit(c) }

  /** The number that `(\d+)ms` reads at the front of a string, if it matches. */
  function LeadingMs(s: string): Option<nat> {
    var d := WordEnd(s, NotDigit);
    if d > 0 && |s| >= d + 2 && s[d] == 'm' && s[d + 1] == 's' then Some(Value(s[..d])) else None
  }

  lemma LeadingMsOf(n: nat, rest: string)
    ensures LeadingMs(Digits(n) + "ms" + rest) == Some(n)
  {
    var s := Digits(n) + "ms" + rest;
    assert s == Digits(n) + ("ms" + rest);
    WordEndOf(Digits(n), "ms" + rest, NotDigit);
    assert s[..|Digits(n)|] == Digits(n);
    ValueOfDigits(n);
  }
}
