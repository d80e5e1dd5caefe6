/** The border probe's detail string: its printer, the server's parser and the
page's two parsers. */
module BorderDetail {
  import opened Samples
  import opened Text

  const DASH := "\U{2014}"

  // ── The printer ─────────────────────────────────────────────────────────────

  function Fmt(rtt: Option<nat>): string {
    if rtt.Some? then Digits(rtt.value) + "ms" else DASH
  }

  function Field(key: string, rtt: Option<nat>): string { key + " " + Fmt(rtt) }

  function Join2(a: string, b: string): string { a + "," + " " + b }

  function Rtts(isp: bool, local: Option<nat>, ispRtt: Option<nat>, upstream: Option<nat>): string {
    if isp then Join2(Field("local", local), Join2(Field("isp", ispRtt), Field("upstream", upstream)))
    else Join2(Field("local", local), Field("upstream", upstream))
  }

  datatype Verdict = Verdict(up: bool, ms: Option<nat>, reason: Option<string>, detail: string)

  const ALL_UP := "ok "
  const ISP_DOWN := "isp_down " + DASH + " upstream unreachable "
  const ISP_GW_DOWN := "isp_gw_down " + DASH + " ISP gateway unreachable "
  const LAN_DOWN := "lan_down " + DASH + " local gateway unreachable "

  function Grouped(prefix: string, group: string): string { prefix + ("(" + group + ")") }

  /** `classify_border`: the verdict on one cycle, from the outside in. */
  function ClassifyBorder(localOk: bool, ispOk: Option<bool>, upstreamOk: bool,
                          localRtt: Option<nat>, ispRtt: Option<nat>, upRtt: Option<nat>): Verdict
  {
    var rtts := Rtts(ispOk.Some?, localRtt, ispRtt, upRtt);
    if upstreamOk then
      Verdict(true, Some(if upRtt.Some? then upRtt.value else 0), None, Grouped(ALL_UP, rtts))
    else if ispOk == Some(true) then
      Verdict(false, None, Some("isp_down"), Grouped(ISP_DOWN, rtts))
    else if ispOk == Some(false) && localOk then
      Verdict(false, None, Some("isp_gw_down"), Grouped(ISP_GW_DOWN, rtts))
    else if localOk then
      Verdict(false, None, Some("isp_down"), Grouped(ISP_DOWN, rtts))
    else
      Verdict(false, None, Some("lan_down"), Grouped(LAN_DOWN, rtts))
  }

  // ── The parsers of per-hop states ───────────────────────────────────────────

  /** Answered, silent, or not measured. */
  type HopState = Option<bool>

  /** States of the local gateway, the ISP gateway and the upstream. */
  datatype Hops = Hops(local: HopState, isp: HopState, upstream: HopState)

  const UNKNOWN := Hops(None, None, None)

  function SetHop(h: Hops, key: string, v: HopState): Hops {
    if key == "local" then h.(local := v)
    else if key == "isp" then h.(isp := v)
    else if key == "upstream" then h.(upstream := v)
    else h
  }

  function ApplyPart(h: Hops, part: string, space: char -> bool): Hops {
    var words := Words(part, space);
    if |words| < 2 then h else SetHop(h, words[0], Some(words[1] != DASH))
  }

  function ApplyParts(parts: seq<string>, space: char -> bool): Hops {
    if parts == [] then UNKNOWN
    else ApplyPart(ApplyParts(parts[..|parts| - 1], space), parts[|parts| - 1], space)
  }

  predicate IsClose(c: char) { c == ')' }

  /** What follows the last opening parenthesis, without trailing space and `)`s. */
  function ServerGroup(detail: string): string {
    var open := RFind(detail, '(');
    if open == |detail| then "" else TrimEnd(TrimEnd(detail[open + 1..], RustSpace), IsClose)
  }

  function ServerHops(detail: Option<string>): Hops {
    if detail.None? || '(' !in detail.value then UNKNOWN
    else ApplyParts(Split(ServerGroup(detail.value), ','), RustSpace)
  }

  method ParseBorderHopStates(detail: Option<string>) returns (states: array<HopState>)
    ensures fresh(states) && states.Length == 3
    ensures Hops(states[0], states[1], states[2]) == ServerHops(detail)
  {
    states := new HopState[3][None, None, None];
    if detail.None? {
      return;
    }
    var open := RFind(detail.value, '(');
    if open == |detail.value| {
      return;
    }
    var inner := TrimEnd(TrimEnd(detail.value[open + 1..], RustSpace), IsClose);
    var parts := Split(inner, ',');
    for i := 0 to |parts|
      invariant Hops(states[0], states[1], states[2]) == ApplyParts(parts[..i], RustSpace)
    {
      assert parts[..i + 1][..i] == parts[..i];
      TakePart(states, parts[i]);
    }
    assert parts[..|parts|] == parts;
  }

  /** One part: a known key with a value sets its hop. */
  method TakePart(states: array<HopState>, part: string)
    requires states.Length == 3
    modifies states
    ensures Hops(states[0], states[1], states[2]) ==
            ApplyPart(Hops(old(states[0]), old(states[1]), old(states[2])), part, RustSpace)
  {
    var words := Words(part, RustSpace);
    if |words| >= 2 {
      var key := words[0];
      var idx := if key == "local" then 0 else if key == "isp" then 1 else if key == "upstream" then 2 else 3;
      if idx < 3 {
        states[idx] := Some(words[1] != DASH);
      }
    }
  }

  predicate Paren(c: char) { c == '(' || c == ')' }

  predicate NotPageSpace(c: char) { !PageSpace(c) }

  /** The group that the page's pattern captures at its leftmost match: an opening
      parenthesis, no parentheses, a closing one, and only spaces to the end. */
  function PageGroup(s: string): Option<string> {
    if s == "" then None else
      var k := WordEnd(s[1..], Paren);
      if s[0] == '(' && k + 1 < |s| && s[k + 1] == ')' && Clean(s[k + 2..], NotPageSpace) then Some(s[1..][..k])
      else PageGroup(s[1..])
  }

  function PageHops(detail: Option<string>): Hops {
    if detail.None? then UNKNOWN else
      var group := PageGroup(detail.value);
      if group.None? then UNKNOWN else ApplyParts(Split(group.value, ','), PageSpace)
  }

  /** `borderHopSig`: which hops answered. */
  function Signature(h: Hops): (bool, bool, bool) {
    (h.local == Some(true), h.isp == Some(true), h.upstream == Some(true))
  }

  // ── The page's RTT parser ───────────────────────────────────────────────────

  /** A match of `key\s+(\d+)ms` at the front. */
  function RttAt(s: string, key: string): Option<nat> {
    if |key| <= |s| && s[..|key|] == key then
      var rest := s[|key|..];
      var k := WordEnd(rest, NotPageSpace);
      if k > 0 then LeadingMs(rest[k..]) else None
    else None
  }

  /** The leftmost match. */
  function PageRtt(s: string, key: string): Option<nat> {
    if RttAt(s, key).Some? then RttAt(s, key) else if s == "" then None else PageRtt(s[1..], key)
  }

  // ── Both state parsers read back what was printed ───────────────────────────

  /** Characters of the printed keys and values. */
  predicate Plain(c: char) {
    'a' <= c <= 'z' || Digit(c) || c == '\U{2014}'
  }

  predicate AllPlain(s: string) { forall i :: 0 <= i < |s| ==> Plain(s[i]) }

  lemma FmtPlain(v: Option<nat>)
    ensures Fmt(v) != "" && AllPlain(Fmt(v))
    ensures Fmt(v) == DASH <==> v.None?
  {
  }

  lemma KeyValueSets(h: Hops, part: string, key: string, v: Option<nat>, space: char -> bool)
    requires Words(part, space) == [key, Fmt(v)]
    ensures ApplyPart(h, part, space) == SetHop(h, key, Some(v.Some?))
  {
    FmtPlain(v);
  }

  lemma PlainWords(key: string, value: string, space: char -> bool)
    requires space == RustSpace || space == PageSpace
    requires key != "" && AllPlain(key) && value != "" && AllPlain(value)
    ensures Words(key + " " + value, space) == [key, value]
    ensures Words(" " + (key + " " + value), space) == [key, value]
  {
    TwoWords(key, value, space);
    assert " " + (key + " " + value) == " " + key + " " + value;
  }

  lemma FieldWords(key: string, v: Option<nat>, space: char -> bool)
    requires space == RustSpace || space == PageSpace
    requires key != "" && AllPlain(key)
    ensures Words(Field(key, v), space) == [key, Fmt(v)]
    ensures Words(" " + Field(key, v), space) == [key, Fmt(v)]
  {
    FmtPlain(v);
    PlainWords(key, Fmt(v), space);
  }

  lemma FieldSetsHop(h: Hops, key: string, v: Option<nat>, space: char -> bool)
    requires space == RustSpace || space == PageSpace
    requires key != "" && AllPlain(key)
    ensures ApplyPart(h, Field(key, v), space) == SetHop(h, key, Some(v.Some?))
    ensures ApplyPart(h, " " + Field(key, v), space) == SetHop(h, key, Some(v.Some?))
  {
    FieldWords(key, v, space);
    KeyValueSets(h, Field(key, v), key, v, space);
    KeyValueSets(h, " " + Field(key, v), key, v, space);
  }

  lemma FieldNoComma(key: string, v: Option<nat>)
    requires AllPlain(key)
    ensures ',' !in Field(key, v) && ',' !in " " + Field(key, v)
    ensures Clean(Field(key, v), Paren)
  {
    FmtPlain(v);
  }

  lemma SplitJoin(a: string, b: string)
    requires ',' !in a
    ensures Split(Join2(a, b), ',') == [a] + Split(" " + b, ',')
  {
    assert Join2(a, b) == a + [','] + (" " + b);
    SplitAt(a, " " + b, ',');
  }

  lemma SplitThree(a: string, b: string, c: string)
    requires ',' !in a && ',' !in b && ',' !in c
    ensures Split(Join2(a, Join2(b, c)), ',') == [a, " " + b, " " + c]
  {
    SplitJoin(a, Join2(b, c));
    assert " " + Join2(b, c) == Join2(" " + b, c);
    SplitJoin(" " + b, c);
    SplitNone(" " + c, ',');
  }

  lemma JoinClean(a: string, b: string)
    requires Clean(a, Paren) && Clean(b, Paren)
    ensures Clean(Join2(a, b), Paren) && Join2(a, b) != ""
  {
  }

  lemma ApplyTwo(a: string, b: string, space: char -> bool)
    ensures ApplyParts([a, b], space) == ApplyPart(ApplyPart(UNKNOWN, a, space), b, space)
  {
    assert [a, b][..1] == [a] && [a][..0] == [];
    assert ApplyParts([a], space) == ApplyPart(UNKNOWN, a, space);
  }

  lemma ApplyThree(a: string, b: string, c: string, space: char -> bool)
    ensures ApplyParts([a, b, c], space) == ApplyPart(ApplyPart(ApplyPart(UNKNOWN, a, space), b, space), c, space)
  {
    assert [a, b, c][..2] == [a, b];
    ApplyTwo(a, b, space);
  }

  lemma TwoFieldsReadBack(k1: string, v1: Option<nat>, k2: string, v2: Option<nat>, space: char -> bool)
    requires space == RustSpace || space == PageSpace
    requires k1 != "" && AllPlain(k1) && k2 != "" && AllPlain(k2)
    ensures ApplyParts(Split(Join2(Field(k1, v1), Field(k2, v2)), ','), space) ==
            SetHop(SetHop(UNKNOWN, k1, Some(v1.Some?)), k2, Some(v2.Some?))
  {
    var a, b := Field(k1, v1), " " + Field(k2, v2);
    FieldNoComma(k1, v1);
    FieldNoComma(k2, v2);
    SplitJoin(a, Field(k2, v2));
    SplitNone(b, ',');
    assert [a] + [b] == [a, b];
    ApplyTwo(a, b, space);
    FieldSetsHop(UNKNOWN, k1, v1, space);
    FieldSetsHop(SetHop(UNKNOWN, k1, Some(v1.Some?)), k2, v2, space);
  }

  lemma ThreeFieldsReadBack(k1: string, v1: Option<nat>, k2: string, v2: Option<nat>, k3: string, v3: Option<nat>,
                            space: char -> bool)
    requires space == RustSpace || space == PageSpace
    requires k1 != "" && AllPlain(k1) && k2 != "" && AllPlain(k2) && k3 != "" && AllPlain(k3)
    ensures ApplyParts(Split(Join2(Field(k1, v1), Join2(Field(k2, v2), Field(k3, v3))), ','), space) ==
            SetHop(SetHop(SetHop(UNKNOWN, k1, Some(v1.Some?)), k2, Some(v2.Some?)), k3, Some(v3.Some?))
  {
    var a, b, c := Field(k1, v1), " " + Field(k2, v2), " " + Field(k3, v3);
    FieldNoComma(k1, v1);
    FieldNoComma(k2, v2);
    FieldNoComma(k3, v3);
    SplitThree(a, Field(k2, v2), Field(k3, v3));
    ApplyThree(a, b, c, space);
    var h := SetHop(UNKNOWN, k1, Some(v1.Some?));
    FieldSetsHop(UNKNOWN, k1, v1, space);
    FieldSetsHop(h, k2, v2, space);
    FieldSetsHop(SetHop(h, k2, Some(v2.Some?)), k3, v3, space);
  }

  function Expected(isp: bool, local: Option<nat>, ispRtt: Option<nat>, upstream: Option<nat>): Hops {
    Hops(Some(local.Some?), if isp then Some(ispRtt.Some?) else None, Some(upstream.Some?))
  }

  lemma PartsReadBack(isp: bool, local: Option<nat>, ispRtt: Option<nat>, upstream: Option<nat>, space: char -> bool)
    requires space == RustSpace || space == PageSpace
    ensures ApplyParts(Split(Rtts(isp, local, ispRtt, upstream), ','), space) == Expected(isp, local, ispRtt, upstream)
  {
    if isp {
      ThreeFieldsReadBack("local", local, "isp", ispRtt, "upstream", upstream, space);
    } else {
      TwoFieldsReadBack("local", local, "upstream", upstream, space);
    }
  }

  /** The printed group holds no parenthesis. */
  lemma RttsClean(isp: bool, local: Option<nat>, ispRtt: Option<nat>, upstream: Option<nat>)
    ensures Rtts(isp, local, ispRtt, upstream) != "" && Clean(Rtts(isp, local, ispRtt, upstream), Paren)
  {
    FieldNoComma("local", local);
    FieldNoComma("isp", ispRtt);
    FieldNoComma("upstream", upstream);
    JoinClean(Field("isp", ispRtt), Field("upstream", upstream));
    if isp {
      JoinClean(Field("local", local), Join2(Field("isp", ispRtt), Field("upstream", upstream)));
    } else {
      JoinClean(Field("local", local), Field("upstream", upstream));
    }
  }

  lemma LastNot(s: string, p: char -> bool)
    requires s == "" || !p(s[|s| - 1])
    ensures TrimEnd(s, p) == s
  {
  }

  lemma ServerGroupOf(prefix: string, group: string)
    requires group != "" && Clean(group, Paren)
    ensures ServerGroup(prefix + "(" + group + ")") == group
  {
    var s, t := prefix + "(" + group + ")", group + ")";
    assert s == prefix + ['('] + t;
    RFindOf(prefix, t, '(');
    assert s[|prefix| + 1..] == t;
    LastNot(t, RustSpace);
    assert !Paren(group[|group| - 1]);
    LastNot(group, IsClose);
    assert t[..|t| - 1] == group;
  }

  lemma {:induction false} PageGroupOf(prefix: string, group: string)
    requires Clean(prefix, Paren) && Clean(group, Paren)
    ensures PageGroup(prefix + "(" + group + ")") == Some(group)
  {
    var s := prefix + "(" + group + ")";
    if prefix == "" {
      assert s[1..] == group + ")";
      WordEndOf(group, ")", Paren);
      assert s[|group| + 2..] == "";
      assert s[1..][..|group|] == group;
    } else {
      assert s[0] == prefix[0];
      assert s[1..] == prefix[1..] + "(" + group + ")";
      PageGroupOf(prefix[1..], group);
    }
  }

  // ── The RTT parser reads back the numbers ───────────────────────────────────

  predicate Ends(w: string, key: string) {
    |w| >= |key| && w[|w| - |key|..] == key
  }

  lemma EndChar(w: string, key: string)
    requires key != "" && Ends(w, key)
    ensures w[|w| - 1] == key[|key| - 1]
  {
    assert w[|w| - |key|..][|key| - 1] == w[|w| - 1];
  }

  lemma NotEnds(w: string, key: string)
    requires w != "" && key != "" && w[|w| - 1] != key[|key| - 1]
    ensures !Ends(w, key)
  {
    if Ends(w, key) {
      EndChar(w, key);
    }
  }

  /** A key and its number stand in two neighbouring words. */
  lemma {:induction false} WordStep(w: string, rest: string, key: string)
    requires Clean(w, PageSpace) && key != "" && Clean(key, PageSpace)
    requires rest != "" && !PageSpace(rest[0])
    ensures PageRtt(w + " " + rest, key) ==
            if Ends(w, key) && LeadingMs(rest).Some? then LeadingMs(rest) else PageRtt(rest, key)
  {
    var s := w + " " + rest;
    if w == "" {
      assert s == " " + rest && s[1..] == rest;
      assert |key| <= |s| ==> s[..|key|][0] == ' ';
    } else {
      FrontOfWord(w, rest, key);
      assert s[1..] == w[1..] + " " + rest;
      WordStep(w[1..], rest, key);
      EndsLater(w, key);
    }
  }

  lemma EndsLater(w: string, key: string)
    requires w != ""
    ensures Ends(w, key) <==> w == key || Ends(w[1..], key)
  {
    if |key| < |w| {
      assert w[1..][|w| - 1 - |key|..] == w[|w| - |key|..];
    } else if |key| == |w| {
      assert w[0..] == w;
    }
  }

  lemma FrontOfWord(w: string, rest: string, key: string)
    requires Clean(w, PageSpace) && key != "" && Clean(key, PageSpace)
    requires rest != "" && !PageSpace(rest[0])
    ensures RttAt(w + " " + rest, key) == if w == key then LeadingMs(rest) else None
  {
    var s := w + " " + rest;
    assert s[|w|] == ' ' && s[..|w|] == w && s[|w|..] == " " + rest;
    if |key| <= |s| && s[..|key|] == key {
      assert forall j :: 0 <= j < |key| ==> key[j] == s[j];
      assert |key| < |w| ==> s[|key|..][0] == w[|key|];
      WordEndOf(" ", rest, NotPageSpace);
      assert (" " + rest)[1..] == rest;
    }
  }

  lemma {:induction false} LastWord(w: string, key: string)
    requires Clean(w, PageSpace)
    ensures PageRtt(w, key) == None
  {
    if |key| <= |w| {
      assert WordEnd(w[|key|..], NotPageSpace) == 0;
    }
    if w != "" {
      LastWord(w[1..], key);
    }
  }

  lemma LeadingMsOfFmt(v: Option<nat>, rest: string)
    ensures LeadingMs(Fmt(v) + rest) == v
  {
    if v.Some? {
      LeadingMsOf(v.value, rest);
    } else {
      assert (Fmt(v) + rest)[0] == '\U{2014}';
    }
  }

  lemma CommaWord(word: string, key: string)
    requires AllPlain(word) && key != "" && AllPlain(key)
    ensures Clean(word + ",", PageSpace) && !Ends(word + ",", key)
  {
    var item := word + ",";
    assert item[|item| - 1] == ',';
    if Ends(item, key) {
      EndChar(item, key);
    }
  }

  /** No match begins in a word that ends in a comma. */
  lemma CommaWordThen(word: string, rest: string, key: string)
    requires AllPlain(word) && key != "" && AllPlain(key)
    requires rest != "" && 'a' <= rest[0] <= 'z'
    ensures PageRtt(word + "," + " " + rest, key) == PageRtt(rest, key)
  {
    CommaWord(word, key);
    assert Clean(key, PageSpace) && !PageSpace(rest[0]);
    WordStep(word + ",", rest, key);
  }

  lemma FieldThen(w: string, v: Option<nat>, rest: string, key: string)
    requires Clean(w, PageSpace) && key != "" && AllPlain(key)
    requires rest != "" && 'a' <= rest[0] <= 'z'
    ensures PageRtt(w + " " + (Fmt(v) + "," + " " + rest), key) ==
            if Ends(w, key) && v.Some? then v else PageRtt(rest, key)
  {
    FmtPlain(v);
    var tail := Fmt(v) + "," + " " + rest;
    assert tail == Fmt(v) + ("," + " " + rest);
    LeadingMsOfFmt(v, "," + " " + rest);
    assert tail[0] == Fmt(v)[0];
    WordStep(w, tail, key);
    CommaWordThen(Fmt(v), rest, key);
  }

  lemma FieldLast(w: string, v: Option<nat>, key: string)
    requires Clean(w, PageSpace) && key != "" && AllPlain(key)
    ensures PageRtt(w + " " + (Fmt(v) + ")"), key) == if Ends(w, key) then v else None
  {
    FmtPlain(v);
    LeadingMsOfFmt(v, ")");
    assert (Fmt(v) + ")")[0] == Fmt(v)[0];
    WordStep(w, Fmt(v) + ")", key);
    LastWord(Fmt(v) + ")", key);
  }

  /** No match begins in text without digits before an opening parenthesis. */
  lemma {:induction false} NoMatchInPrefix(prefix: string, group: string, key: string)
    requires forall i :: 0 <= i < |prefix| ==> !Digit(prefix[i])
    requires key != "" && AllPlain(key)
    ensures PageRtt(prefix + ("(" + group), key) == PageRtt("(" + group, key)
  {
    var s := prefix + ("(" + group);
    if prefix == "" {
      assert s == "(" + group;
    } else {
      NoMatchAtFront(prefix, group, key);
      assert s[1..] == prefix[1..] + ("(" + group);
      NoMatchInPrefix(prefix[1..], group, key);
    }
  }

  lemma NoMatchAtFront(prefix: string, group: string, key: string)
    requires forall i :: 0 <= i < |prefix| ==> !Digit(prefix[i])
    requires key != "" && AllPlain(key)
    ensures RttAt(prefix + ("(" + group), key) == None
  {
    var s := prefix + ("(" + group);
    assert s[|prefix|] == '(';
    if |key| <= |s| && s[..|key|] == key {
      assert forall j :: 0 <= j < |key| ==> key[j] == s[j];
      var rest := s[|key|..];
      var k := WordEnd(rest, NotPageSpace);
      assert rest[|prefix| - |key|] == '(';
      WordEndChars(rest, NotPageSpace);
      assert rest[k..][0] == s[|key| + k];
    }
  }

  lemma GroupForm2(k1: string, x1: string, k2: string, x2: string)
    ensures "(" + Join2(k1 + " " + x1, k2 + " " + x2) + ")" ==
            ("(" + k1) + " " + (x1 + "," + " " + (k2 + " " + (x2 + ")")))
  {
  }

  lemma TwoFieldRtts(k1: string, v1: Option<nat>, k2: string, v2: Option<nat>, key: string)
    requires AllPlain(k1) && AllPlain(k2) && k2 != "" && 'a' <= k2[0] <= 'z' && key != "" && AllPlain(key)
    ensures PageRtt("(" + Join2(Field(k1, v1), Field(k2, v2)) + ")", key) ==
            if Ends("(" + k1, key) && v1.Some? then v1 else if Ends(k2, key) then v2 else None
  {
    var c := k2 + " " + (Fmt(v2) + ")");
    GroupForm2(k1, Fmt(v1), k2, Fmt(v2));
    assert c[0] == k2[0];
    FieldLast(k2, v2, key);
    FieldThen("(" + k1, v1, c, key);
  }

  lemma GroupForm(k1: string, x1: string, k2: string, x2: string, k3: string, x3: string)
    ensures "(" + Join2(k1 + " " + x1, Join2(k2 + " " + x2, k3 + " " + x3)) + ")" ==
            ("(" + k1) + " " + (x1 + "," + " " + (k2 + " " + (x2 + "," + " " + (k3 + " " + (x3 + ")")))))
  {
    var c, c' := k3 + " " + x3, k3 + " " + (x3 + ")");
    var b, b' := Join2(k2 + " " + x2, c), k2 + " " + (x2 + "," + " " + c');
    assert c + ")" == c';
    assert b + ")" == b';
    assert "(" + Join2(k1 + " " + x1, b) + ")" == ("(" + k1) + " " + (x1 + "," + " " + (b + ")"));
  }

  /** The numbers of the two last fields, of which the later one closes the group. */
  lemma LastFieldsRtts(k2: string, v2: Option<nat>, k3: string, v3: Option<nat>, key: string)
    requires AllPlain(k2) && AllPlain(k3) && key != "" && AllPlain(key) && k3 != "" && 'a' <= k3[0] <= 'z'
    ensures PageRtt(k2 + " " + (Fmt(v2) + "," + " " + (k3 + " " + (Fmt(v3) + ")"))), key) ==
            if Ends(k2, key) && v2.Some? then v2 else if Ends(k3, key) then v3 else None
  {
    var c := k3 + " " + (Fmt(v3) + ")");
    assert c[0] == k3[0];
    FieldLast(k3, v3, key);
    FieldThen(k2, v2, c, key);
  }

  lemma ThreeFieldRtts(k1: string, v1: Option<nat>, k2: string, v2: Option<nat>,
                       k3: string, v3: Option<nat>, key: string)
    requires AllPlain(k1) && AllPlain(k2) && AllPlain(k3) && key != "" && AllPlain(key)
    requires k2 != "" && 'a' <= k2[0] <= 'z' && k3 != "" && 'a' <= k3[0] <= 'z'
    ensures PageRtt("(" + Join2(Field(k1, v1), Join2(Field(k2, v2), Field(k3, v3))) + ")", key) ==
            if Ends("(" + k1, key) && v1.Some? then v1
            else if Ends(k2, key) && v2.Some? then v2
            else if Ends(k3, key) then v3
            else None
  {
    var b := k2 + " " + (Fmt(v2) + "," + " " + (k3 + " " + (Fmt(v3) + ")")));
    GroupForm(k1, Fmt(v1), k2, Fmt(v2), k3, Fmt(v3));
    assert b[0] == k2[0];
    LastFieldsRtts(k2, v2, k3, v3, key);
    FieldThen("(" + k1, v1, b, key);
  }

  lemma GroupRtts(isp: bool, local: Option<nat>, ispRtt: Option<nat>, upstream: Option<nat>, key: string)
    requires key == "local" || key == "isp" || key == "upstream"
    ensures PageRtt("(" + Rtts(isp, local, ispRtt, upstream) + ")", key) ==
            if key == "local" then local else if key == "upstream" then upstream else if isp then ispRtt else None
  {
    assert Ends("(" + "local", "local");
    NotEnds("(" + "local", "isp");
    NotEnds("(" + "local", "upstream");
    NotEnds("isp", "local");
    NotEnds("isp", "upstream");
    NotEnds("upstream", "local");
    NotEnds("upstream", "isp");
    if isp {
      ThreeFieldRtts("local", local, "isp", ispRtt, "upstream", upstream, key);
    } else {
      TwoFieldRtts("local", local, "upstream", upstream, key);
    }
  }

  // ── Round trip ──────────────────────────────────────────────────────────────

  predicate Letters(prefix: string) {
    forall i :: 0 <= i < |prefix| ==> !Digit(prefix[i]) && !Paren(prefix[i])
  }

  /** Both parsers take the printed group. */
  lemma GroupsTaken(prefix: string, group: string)
    requires Letters(prefix) && group != "" && Clean(group, Paren)
    ensures ServerHops(Some(Grouped(prefix, group))) == ApplyParts(Split(group, ','), RustSpace)
    ensures PageHops(Some(Grouped(prefix, group))) == ApplyParts(Split(group, ','), PageSpace)
  {
    var detail := Grouped(prefix, group);
    assert detail == prefix + "(" + group + ")";
    assert detail[|prefix|] == '(';
    ServerGroupOf(prefix, group);
    PageGroupOf(prefix, group);
  }

  lemma StatesReadBack(prefix: string, isp: bool, local: Option<nat>, ispRtt: Option<nat>, upstream: Option<nat>)
    requires Letters(prefix)
    ensures var detail := Grouped(prefix, Rtts(isp, local, ispRtt, upstream));
            ServerHops(Some(detail)) == PageHops(Some(detail)) == Expected(isp, local, ispRtt, upstream)
  {
    RttsClean(isp, local, ispRtt, upstream);
    GroupsTaken(prefix, Rtts(isp, local, ispRtt, upstream));
    PartsReadBack(isp, local, ispRtt, upstream, RustSpace);
    PartsReadBack(isp, local, ispRtt, upstream, PageSpace);
  }

  lemma RttsReadBack(prefix: string, isp: bool, local: Option<nat>, ispRtt: Option<nat>, upstream: Option<nat>,
                     key: string)
    requires Letters(prefix)
    requires key == "local" || key == "isp" || key == "upstream"
    ensures PageRtt(Grouped(prefix, Rtts(isp, local, ispRtt, upstream)), key) ==
            if key == "local" then local else if key == "upstream" then upstream else if isp then ispRtt else None
  {
    var group := Rtts(isp, local, ispRtt, upstream);
    assert "(" + group + ")" == "(" + (group + ")");
    NoMatchInPrefix(prefix, group + ")", key);
    GroupRtts(isp, local, ispRtt, upstream, key);
  }

  lemma AllUpLetters() ensures Letters(ALL_UP) {}

  lemma IspDownLetters() ensures Letters(ISP_DOWN) {}

  lemma IspGwDownLetters() ensures Letters(ISP_GW_DOWN) {}

  lemma LanDownLetters() ensures Letters(LAN_DOWN) {}

  /** The prefix that a verdict's detail starts with. */
  function PrefixOf(localOk: bool, ispOk: Option<bool>, upstreamOk: bool): string {
    if upstreamOk then ALL_UP
    else if ispOk == Some(true) then ISP_DOWN
    else if localOk then if ispOk == Some(false) then ISP_GW_DOWN else ISP_DOWN
    else LAN_DOWN
  }

  lemma PrefixLetters(localOk: bool, ispOk: Option<bool>, upstreamOk: bool)
    ensures Letters(PrefixOf(localOk, ispOk, upstreamOk))
  {
    AllUpLetters();
    IspDownLetters();
    IspGwDownLetters();
    LanDownLetters();
  }

  lemma DetailForm(localOk: bool, ispOk: Option<bool>, upstreamOk: bool,
                   localRtt: Option<nat>, ispRtt: Option<nat>, upRtt: Option<nat>)
    ensures ClassifyBorder(localOk, ispOk, upstreamOk, localRtt, ispRtt, upRtt).detail ==
            Grouped(PrefixOf(localOk, ispOk, upstreamOk), Rtts(ispOk.Some?, localRtt, ispRtt, upRtt))
    ensures Letters(PrefixOf(localOk, ispOk, upstreamOk))
  {
    PrefixLetters(localOk, ispOk, upstreamOk);
  }

  /** Whatever the verdict, parsing the printed detail gives back exactly which
      hops answered, in the server and in the page, and the page's RTT parser
      recovers the numbers. */
  lemma DetailRoundTrip(localOk: bool, ispOk: Option<bool>, upstreamOk: bool,
                        localRtt: Option<nat>, ispRtt: Option<nat>, upRtt: Option<nat>)
    requires localRtt.Some? == localOk && upRtt.Some? == upstreamOk && ispRtt.Some? == (ispOk == Some(true))
    ensures var detail := ClassifyBorder(localOk, ispOk, upstreamOk, localRtt, ispRtt, upRtt).detail;
            && ServerHops(Some(detail)) == PageHops(Some(detail)) == Hops(Some(localOk), ispOk, Some(upstreamOk))
            && PageRtt(detail, "local") == localRtt
            && PageRtt(detail, "isp") == ispRtt
            && PageRtt(detail, "upstream") == upRtt
  {
    var prefix := PrefixOf(localOk, ispOk, upstreamOk);
    match ispOk {
      case None =>
      case Some(answered) => assert ispRtt.Some? == answered;
    }
    DetailForm(localOk, ispOk, upstreamOk, localRtt, ispRtt, upRtt);
    StatesReadBack(prefix, ispOk.Some?, localRtt, ispRtt, upRtt);
    RttsReadBack(prefix, ispOk.Some?, localRtt, ispRtt, upRtt, "local");
    RttsReadBack(prefix, ispOk.Some?, localRtt, ispRtt, upRtt, "isp");
    RttsReadBack(prefix, ispOk.Some?, localRtt, ispRtt, upRtt, "upstream");
  }

  /** The string starts with this word. */
  predicate Leads(prefix: string, w: string) {
    w != "" && Clean(w, RustSpace) && |prefix| > |w| && prefix[..|w|] == w && prefix[|w|] == ' '
  }

  lemma AllUpLeads() ensures Leads(ALL_UP, "ok") {}

  lemma IspDownLeads() ensures Leads(ISP_DOWN, "isp_down") {}

  lemma IspGwDownLeads() ensures Leads(ISP_GW_DOWN, "isp_gw_down") {}

  lemma LanDownLeads() ensures Leads(LAN_DOWN, "lan_down") {}

  lemma LeadingWord(prefix: string, w: string, group: string)
    requires Leads(prefix, w)
    ensures var words := Words(Grouped(prefix, group), RustSpace);
            words != [] && words[0] == w
  {
    var rest := prefix[|w|..] + ("(" + group + ")");
    assert Grouped(prefix, group) == w + rest;
    FirstWord(w, rest, RustSpace);
  }

  /** The outermost hop that answered: 3 upstream, 2 ISP gateway, 1 local gateway. */
  function Outermost(localOk: bool, ispOk: Option<bool>, upstreamOk: bool): nat {
    if upstreamOk then 3 else if ispOk == Some(true) then 2 else if localOk then 1 else 0
  }

  /** The fault lies on the first stretch beyond that hop; without a measured ISP
      gateway the stretch beyond the local one is the ISP's. */
  function FaultBeyond(hop: nat, ispMeasured: bool): string {
    if hop == 3 then "ok"
    else if hop == 0 then "lan_down"
    else if hop == 1 && ispMeasured then "isp_gw_down"
    else "isp_down"
  }

  /** The verdict names the fault, or none when the upstream answered. */
  lemma VerdictNamesFault(localOk: bool, ispOk: Option<bool>, upstreamOk: bool,
                          localRtt: Option<nat>, ispRtt: Option<nat>, upRtt: Option<nat>)
    ensures var v := ClassifyBorder(localOk, ispOk, upstreamOk, localRtt, ispRtt, upRtt);
            var word := FaultBeyond(Outermost(localOk, ispOk, upstreamOk), ispOk.Some?);
            && (v.up <==> v.reason.None?)
            && (v.up <==> upstreamOk)
            && word == if v.up then "ok" else v.reason.value
  {
    assert ispOk == None || ispOk == Some(true) || ispOk == Some(false) by {
      if ispOk.Some? {
        assert ispOk.value || !ispOk.value;
      }
    }
  }

  lemma DetailLeads(localOk: bool, ispOk: Option<bool>, upstreamOk: bool,
                    localRtt: Option<nat>, ispRtt: Option<nat>, upRtt: Option<nat>)
    ensures var words := Words(ClassifyBorder(localOk, ispOk, upstreamOk, localRtt, ispRtt, upRtt).detail, RustSpace);
            words != [] && words[0] == FaultBeyond(Outermost(localOk, ispOk, upstreamOk), ispOk.Some?)
  {
    PrefixLeads(localOk, ispOk, upstreamOk);
    DetailForm(localOk, ispOk, upstreamOk, localRtt, ispRtt, upRtt);
    LeadingWord(PrefixOf(localOk, ispOk, upstreamOk), FaultBeyond(Outermost(localOk, ispOk, upstreamOk), ispOk.Some?),
                Rtts(ispOk.Some?, localRtt, ispRtt, upRtt));
  }

  /** The fault class leads the detail, where the state timeline looks for it. */
  lemma FaultClassLeads(localOk: bool, ispOk: Option<bool>, upstreamOk: bool,
                        localRtt: Option<nat>, ispRtt: Option<nat>, upRtt: Option<nat>)
    ensures var v := ClassifyBorder(localOk, ispOk, upstreamOk, localRtt, ispRtt, upRtt);
            var words := Words(v.detail, RustSpace);
            && (v.up <==> v.reason.None?)
            && (v.up <==> upstreamOk)
            && (v.ms.Some? <==> v.up)
            && (v.up ==> v.ms == if upRtt.Some? then upRtt else Some(0))
            && words != [] && words[0] == (if v.up then "ok" else v.reason.value)
            && words[0] == FaultBeyond(Outermost(localOk, ispOk, upstreamOk), ispOk.Some?)
  {
    VerdictNamesFault(localOk, ispOk, upstreamOk, localRtt, ispRtt, upRtt);
    DetailLeads(localOk, ispOk, upstreamOk, localRtt, ispRtt, upRtt);
  }

  lemma PrefixLeads(localOk: bool, ispOk: Option<bool>, upstreamOk: bool)
    ensures Leads(PrefixOf(localOk, ispOk, upstreamOk), FaultBeyond(Outermost(localOk, ispOk, upstreamOk), ispOk.Some?))
  {
    assert ispOk == None || ispOk == Some(true) || ispOk == Some(false) by {
      if ispOk.Some? {
        assert ispOk.value || !ispOk.value;
      }
    }
    if upstreamOk {
      AllUpLeads();
    } else if ispOk == Some(true) || (localOk && ispOk != Some(false)) {
      IspDownLeads();
    } else if localOk {
      IspGwDownLeads();
    } else {
      LanDownLeads();
    }
  }
}
