/**
 The canonical bytes an audit event is hashed over (platform/audit.py, `canonical_bytes`), and a
 reader for them. Reading back what was written, whatever follows it, returns every covered field:
 so two events with the same bytes, or with the same bytes followed by `|` and a hash, are the same.

 Strings stand for their UTF-8 encoding.
 */
module CanonicalJson {
  import opened Numerals
  import opened Wrappers

  /** Every field the chain protects. */
  datatype Covered = Covered(
    organizationId: string, sequence: int, createdAtUs: int, actorUserId: Option<string>,
    action: string, resourceType: string, resourceId: Option<string>, outcome: string,
    ipAddress: Option<string>, payload: string)

  datatype Value = Number(n: int) | Text(s: Option<string>)

  // ----- strings -----

  function HexDigit(n: nat): char
    requires n < 16
  {
    if n < 10 then (48 + n) as char else (87 + n) as char
  }

  function HexValue(c: char): nat {
    if '0' <= c <= '9' then c as int - 48 else if 'a' <= c <= 'f' then c as int - 87 else 0
  }

  /** One character inside a JSON string, as `json.dumps(..., ensure_ascii=False)` writes it. */
  function Escape(c: char): string {
    if c == '\\' then ['\\', '\\']
    else if c == '"' then ['\\', '"']
    else if c == '\n' then ['\\', 'n']
    else if c == '\r' then ['\\', 'r']
    else if c == '\t' then ['\\', 't']
    else if c == 8 as char then ['\\', 'b']
    else if c == 12 as char then ['\\', 'f']
    else if c as int < 32 then ['\\', 'u', '0', '0', HexDigit(c as int / 16), HexDigit(c as int % 16)]
    else [c]
  }

  /** The character at the front of `u`, and how many characters it was written with. */
  function ReadChar(u: string): (r: (char, nat))
    requires |u| > 0
    ensures 1 <= r.1 <= |u|
  {
    if u[0] != '\\' || |u| < 2 then (u[0], 1)
    else if u[1] == 'n' then ('\n', 2)
    else if u[1] == 'r' then ('\r', 2)
    else if u[1] == 't' then ('\t', 2)
    else if u[1] == 'b' then (8 as char, 2)
    else if u[1] == 'f' then (12 as char, 2)
    else if u[1] == 'u' && |u| >= 6 then ((16 * HexValue(u[4]) + HexValue(u[5])) as char, 6)
    else (u[1], 2)
  }

  lemma CharReadBack(c: char, x: string)
    ensures ReadChar(Escape(c) + x) == (c, |Escape(c)|)
    ensures |Escape(c)| > 0 && (Escape(c) + x)[0] != '"' && (Escape(c) + x)[|Escape(c)|..] == x
  {
    var e := Escape(c);
    var u := e + x;
    assert forall i :: 0 <= i < |e| ==> u[i] == e[i];
  }

  function EscapeAll(s: string): string {
    if s == "" then "" else Escape(s[0]) + EscapeAll(s[1..])
  }

  /** The body of a string up to its closing quote, and what follows the quote. */
  function ReadBody(u: string): (string, string)
    decreases |u|
  {
    if u == "" then ("", "")
    else if u[0] == '"' then ("", u[1..])
    else
      var (c, k) := ReadChar(u);
      var (s, rest) := ReadBody(u[k..]);
      ([c] + s, rest)
  }

  lemma {:induction false} BodyReadBack(s: string, x: string)
    ensures ReadBody(EscapeAll(s) + (['"'] + x)) == (s, x)
    decreases |s|
  {
    if s == "" {
      assert EscapeAll(s) + (['"'] + x) == ['"'] + x;
    } else {
      var tail := EscapeAll(s[1..]) + (['"'] + x);
      var u := EscapeAll(s) + (['"'] + x);
      assert u == Escape(s[0]) + tail;
      CharReadBack(s[0], tail);
      BodyReadBack(s[1..], x);
      assert s == [s[0]] + s[1..];
    }
  }

  // ----- objects -----

  function Render(v: Value): string {
    match v
    case Number(n) => Int(n)
    case Text(None) => ['n', 'u', 'l', 'l']
    case Text(Some(s)) => ['"'] + EscapeAll(s) + ['"']
  }

  function ReadValue(u: string): (Value, string) {
    if u == "" then (Text(None), "")
    else if u[0] == '"' then
      var (s, rest) := ReadBody(u[1..]);
      (Text(Some(s)), rest)
    else if u[0] == 'n' && |u| >= 4 then (Text(None), u[4..])
    else
      var k := NumeralLength(u);
      (Number(IntValue(u[..k])), u[k..])
  }

  lemma NumberReadBack(n: int, x: string)
    requires x != "" && !Numeral(x[0])
    ensures ReadValue(Int(n) + x) == (Number(n), x)
  {
    IntReadBack(n);
    NumeralStops(Int(n), x);
    var u := Int(n) + x;
    assert u[0] == Int(n)[0] && Numeral(u[0]);
    assert u[..|Int(n)|] == Int(n) && u[|Int(n)|..] == x;
  }

  lemma StringReadBack(s: string, x: string)
    ensures ReadValue(['"'] + EscapeAll(s) + ['"'] + x) == (Text(Some(s)), x)
  {
    var u := ['"'] + EscapeAll(s) + ['"'] + x;
    assert u[1..] == EscapeAll(s) + (['"'] + x);
    BodyReadBack(s, x);
  }

  lemma ValueReadBack(v: Value, x: string)
    requires x != "" && !Numeral(x[0])
    ensures ReadValue(Render(v) + x) == (v, x)
  {
    match v
    case Number(n) => NumberReadBack(n, x);
    case Text(Some(s)) => StringReadBack(s, x);
    case Text(None) => assert (Render(v) + x)[4..] == x;
  }

  /** What stands before a value: a comma unless it is the first member, then the key. */
  function Lead(key: string, first: bool): string {
    (if first then [] else [',']) + ['"'] + key + ['"', ':']
  }

  /** The members of an object and its closing brace: keys as given, no whitespace. */
  function Members(keys: seq<string>, vs: seq<Value>, first: bool): (u: string)
    requires |keys| == |vs|
    ensures u != "" && !Numeral(u[0])
  {
    if vs == [] then ['}'] else Lead(keys[0], first) + (Render(vs[0]) + Members(keys[1..], vs[1..], false))
  }

  /** The values under the given keys, and what follows the object. */
  function ReadMembers(keys: seq<string>, u: string, first: bool): (seq<Value>, string) {
    if keys == [] then ([], if u == "" then "" else u[1..])
    else
      var k := |Lead(keys[0], first)|;
      if |u| < k then ([], "")
      else
        var (v, rest) := ReadValue(u[k..]);
        var (vs, after) := ReadMembers(keys[1..], rest, false);
        ([v] + vs, after)
  }

  lemma DropPrefix(a: string, b: string)
    ensures (a + b)[|a|..] == b
  {
  }

  lemma ReadMember(keys: seq<string>, first: bool, v: Value, more: string)
    requires keys != [] && more != "" && !Numeral(more[0])
    ensures var (vs, after) := ReadMembers(keys[1..], more, false);
            ReadMembers(keys, Lead(keys[0], first) + (Render(v) + more), first) == ([v] + vs, after)
  {
    ValueReadBack(v, more);
    DropPrefix(Lead(keys[0], first), Render(v) + more);
  }

  lemma MembersStart(keys: seq<string>, vs: seq<Value>, first: bool, x: string)
    requires |keys| == |vs| > 0
    ensures Members(keys, vs, first) + x
         == Lead(keys[0], first) + (Render(vs[0]) + (Members(keys[1..], vs[1..], false) + x))
  {
    Regroup(Lead(keys[0], first), Render(vs[0]), Members(keys[1..], vs[1..], false), x);
  }

  lemma Regroup(a: string, b: string, m: string, x: string)
    ensures (a + (b + m)) + x == a + (b + (m + x))
  {
  }

  lemma {:induction false} MembersReadBack(keys: seq<string>, vs: seq<Value>, first: bool, x: string)
    requires |keys| == |vs|
    ensures ReadMembers(keys, Members(keys, vs, first) + x, first) == (vs, x)
    decreases |keys|
  {
    if vs == [] {
      DropPrefix(['}'], x);
    } else {
      MembersReadBack(keys[1..], vs[1..], false, x);
      MembersStart(keys, vs, first, x);
      ReadMember(keys, first, vs[0], Members(keys[1..], vs[1..], false) + x);
      assert vs == [vs[0]] + vs[1..];
    }
  }

  const KEYS: seq<string> := [
    "action", "actor_user_id", "created_at_us", "ip_address", "organization_id", "outcome", "payload",
    "resource_id", "resource_type", "sequence", "v"]

  /** The values in the order of their sorted keys; `v` is the format version, always 1. */
  function Fields(c: Covered): (vs: seq<Value>)
    ensures |vs| == |KEYS|
  {
    [Text(Some(c.action)), Text(c.actorUserId), Number(c.createdAtUs), Text(c.ipAddress),
     Text(Some(c.organizationId)), Text(Some(c.outcome)), Text(Some(c.payload)), Text(c.resourceId),
     Text(Some(c.resourceType)), Number(c.sequence), Number(1)]
  }

  function CanonicalBytes(c: Covered): string {
    ['{'] + Members(KEYS, Fields(c), true)
  }

  /** What the digest is fed: the canonical bytes, a bar, the predecessor's hash. */
  function Preimage(c: Covered, previousHash: string): string {
    CanonicalBytes(c) + (['|'] + previousHash)
  }

  lemma ObjectDetermines(keys: seq<string>, vs: seq<Value>, x: string, ws: seq<Value>, y: string)
    requires |keys| == |vs| == |ws|
    requires Members(keys, vs, true) + x == Members(keys, ws, true) + y
    ensures vs == ws && x == y
  {
    MembersReadBack(keys, vs, true, x);
    MembersReadBack(keys, ws, true, y);
  }

  lemma DropFirst(c: char, m: string, x: string)
    ensures (['{'] + m + x)[1..] == m + x && ([c] + x)[1..] == x
  {
  }

  lemma FieldsDetermine(a: Covered, b: Covered)
    requires Fields(a) == Fields(b)
    ensures a == b
  {
    var u, v := Fields(a), Fields(b);
    assert u[0] == v[0] && u[1] == v[1] && u[2] == v[2] && u[3] == v[3] && u[4] == v[4] && u[5] == v[5];
    assert u[6] == v[6] && u[7] == v[7] && u[8] == v[8] && u[9] == v[9];
  }

  /** The bytes determine every covered field and the link, whatever text the link is. */
  lemma PreimageDetermines(a: Covered, p: string, b: Covered, q: string)
    requires Preimage(a, p) == Preimage(b, q)
    ensures a == b && p == q
  {
    DropFirst('|', Members(KEYS, Fields(a), true), ['|'] + p);
    DropFirst('|', Members(KEYS, Fields(b), true), ['|'] + q);
    DropFirst('|', [], p);
    DropFirst('|', [], q);
    ObjectDetermines(KEYS, Fields(a), ['|'] + p, Fields(b), ['|'] + q);
    FieldsDetermine(a, b);
  }

  // ----- which bytes -----

  /** Every kind of character as the standard library escapes it: the quote, the backslash and the five
      controls that have a short form by a backslash and one letter, other controls by four hex digits, and
      everything else as itself. */
  lemma EscapesExactly(c: char)
    ensures Escape('"') == "\\\"" && Escape('\\') == "\\\\" && Escape('\n') == "\\n" && Escape('\r') == "\\r"
    ensures Escape('\t') == "\\t" && Escape(8 as char) == "\\b" && Escape(12 as char) == "\\f"
    ensures Escape(0 as char) == "\\u0000" && Escape(11 as char) == "\\u000b" && Escape(31 as char) == "\\u001f"
    ensures Escape(c) == [c] <==> c as int >= 32 && c != '"' && c != '\\'
  {
  }

  function Quoted(s: string): string {
    ['"'] + EscapeAll(s) + ['"']
  }

  function QuotedOrNull(s: Option<string>): string {
    if s == None then "null" else Quoted(s.value)
  }

  function Pair(key: string, value: string): string {
    ['"'] + key + ['"', ':'] + value
  }

  function Commas(parts: seq<string>): string {
    if parts == [] then [] else if |parts| == 1 then parts[0] else parts[0] + ([','] + Commas(parts[1..]))
  }

  function Pairs(keys: seq<string>, vs: seq<Value>): (pairs: seq<string>)
    requires |keys| == |vs|
    ensures |pairs| == |keys| && forall i :: 0 <= i < |keys| ==> pairs[i] == Pair(keys[i], Render(vs[i]))
  {
    seq(|keys|, i requires 0 <= i < |keys| => Pair(keys[i], Render(vs[i])))
  }

  lemma LeadAndValue(key: string, first: bool, value: string, rest: string)
    ensures Lead(key, first) + (value + rest) == (if first then [] else [',']) + (Pair(key, value) + rest)
  {
  }

  lemma Reassociate(a: string, b: string, c: string, d: string)
    ensures a + (b + ([','] + c + d)) == a + ((b + ([','] + c)) + d)
  {
  }

  lemma {:induction false} MembersAreCommas(keys: seq<string>, vs: seq<Value>, first: bool)
    requires |keys| == |vs| > 0
    ensures Members(keys, vs, first) == (if first then [] else [',']) + (Commas(Pairs(keys, vs)) + ['}'])
    decreases |keys|
  {
    var pair, rest := Pair(keys[0], Render(vs[0])), Members(keys[1..], vs[1..], false);
    LeadAndValue(keys[0], first, Render(vs[0]), rest);
    assert Pairs(keys, vs)[1..] == Pairs(keys[1..], vs[1..]);
    if |keys| > 1 {
      MembersAreCommas(keys[1..], vs[1..], false);
      Reassociate(if first then [] else [','], pair, Commas(Pairs(keys[1..], vs[1..])), ['}']);
    }
  }

  /** Every covered field under its name, in the order of the names. */
  function Named(c: Covered): seq<string> {
    [Pair("action", Quoted(c.action)), Pair("actor_user_id", QuotedOrNull(c.actorUserId)),
     Pair("created_at_us", Int(c.createdAtUs)), Pair("ip_address", QuotedOrNull(c.ipAddress)),
     Pair("organization_id", Quoted(c.organizationId)), Pair("outcome", Quoted(c.outcome)),
     Pair("payload", Quoted(c.payload)), Pair("resource_id", QuotedOrNull(c.resourceId)),
     Pair("resource_type", Quoted(c.resourceType)), Pair("sequence", Int(c.sequence)), Pair("v", Int(1))]
  }

  lemma RenderText(s: string, t: Option<string>)
    ensures Render(Text(Some(s))) == Quoted(s) && Render(Text(t)) == QuotedOrNull(t)
  {
  }

  lemma PairsAreNamed(c: Covered, i: nat)
    requires i < |KEYS|
    ensures Pair(KEYS[i], Render(Fields(c)[i])) == Named(c)[i]
  {
    RenderText(c.action, c.actorUserId);
    RenderText(c.organizationId, c.ipAddress);
    RenderText(c.outcome, c.resourceId);
    RenderText(c.payload, None);
    RenderText(c.resourceType, None);
  }

  /** The bytes in full: an object of the named fields without whitespace, a bar and the hash. */
  lemma SpelledOut(c: Covered, previousHash: string)
    ensures Preimage(c, previousHash) == ['{'] + (Commas(Named(c)) + ['}']) + (['|'] + previousHash)
  {
    MembersAreCommas(KEYS, Fields(c), true);
    forall i | 0 <= i < |KEYS| ensures Pairs(KEYS, Fields(c))[i] == Named(c)[i] {
      PairsAreNamed(c, i);
    }
    assert Pairs(KEYS, Fields(c)) == Named(c);
    assert Members(KEYS, Fields(c), true) == Commas(Named(c)) + ['}'];
  }
}
