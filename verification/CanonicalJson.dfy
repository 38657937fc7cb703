/**
 Canonical JSON as the audit trail hashes it: compact, keys sorted, so that one value has one text.
 Characters stand for the UTF-8 bytes the serialiser writes.
 */
module CanonicalJson {
  import opened JsonReader
  import opened Wrappers

  // ------------------------------------------------------------------------------------------
  // Key order
  // ------------------------------------------------------------------------------------------

  predicate AtMost(a: string, b: string) {
    a == "" || (b != "" && (a[0] < b[0] || (a[0] == b[0] && AtMost(a[1..], b[1..]))))
  }

  lemma {:induction false} AtMostTotal(a: string, b: string)
    ensures AtMost(a, b) || AtMost(b, a)
  {
    if a != "" && b != "" && a[0] == b[0] {
      AtMostTotal(a[1..], b[1..]);
    }
  }

  lemma {:induction false} AtMostTransitive(a: string, b: string, c: string)
    requires AtMost(a, b) && AtMost(b, c)
    ensures AtMost(a, c)
  {
    if a != "" && b != "" && c != "" && a[0] == b[0] == c[0] {
      AtMostTransitive(a[1..], b[1..], c[1..]);
    }
  }

  predicate IsLeast(k: string, keys: set<string>) {
    k in keys && forall x :: x in keys ==> AtMost(k, x)
  }

  lemma LeastOf(k: string, m: string, rest: set<string>)
    requires IsLeast(m, rest)
    ensures IsLeast(if AtMost(k, m) then k else m, rest + {k})
  {
    AtMostTotal(k, m);
    AtMostTotal(k, k);
    if AtMost(k, m) {
      forall x | x in rest ensures AtMost(k, x) {
        AtMostTransitive(k, m, x);
      }
    }
  }

  lemma {:induction false} LeastExists(keys: set<string>)
    requires keys != {}
    ensures exists k :: IsLeast(k, keys)
  {
    var k :| k in keys;
    var rest := keys - {k};
    assert keys == rest + {k};
    if rest == {} {
      AtMostTotal(k, k);
      assert IsLeast(k, keys);
    } else {
      LeastExists(rest);
      var m :| IsLeast(m, rest);
      LeastOf(k, m, rest);
    }
  }

  lemma {:induction false} AtMostAntisymmetric(a: string, b: string)
    requires AtMost(a, b) && AtMost(b, a)
    ensures a == b
  {
    if a != "" && b != "" {
      AtMostAntisymmetric(a[1..], b[1..]);
      assert a == [a[0]] + a[1..] && b == [b[0]] + b[1..];
    }
  }

  lemma LeastIsUnique(keys: set<string>)
    ensures forall k, l :: IsLeast(k, keys) && IsLeast(l, keys) ==> k == l
  {
    forall k, l | IsLeast(k, keys) && IsLeast(l, keys) ensures k == l {
      AtMostAntisymmetric(k, l);
    }
  }

  function LeastKey(keys: set<string>): (k: string)
    requires keys != {}
    ensures IsLeast(k, keys)
  {
    LeastExists(keys);
    LeastIsUnique(keys);
    var k :| IsLeast(k, keys);
    k
  }

  // ------------------------------------------------------------------------------------------
  // The serialiser
  // ------------------------------------------------------------------------------------------

  function HexDigit(n: int): (c: char)
    requires 0 <= n < 16
  {
    if n < 10 then '0' + n as char else 'a' + (n - 10) as char
  }

  function Escape(c: char): string {
    if c == '\"' then ['\\', '\"']
    else if c == '\\' then ['\\', '\\']
    else if c == '\n' then ['\\', 'n']
    else if c == '\r' then ['\\', 'r']
    else if c == '\t' then ['\\', 't']
    else if c as int == 8 then ['\\', 'b']
    else if c as int == 12 then ['\\', 'f']
    else if c < ' ' then ['\\', 'u', '0', '0', HexDigit(c as int / 16), HexDigit(c as int % 16)]
    else [c]
  }

  /** The text of a string from after its opening quote through its closing quote. */
  function Quoted(s: string): string {
    if s == "" then ['\"'] else Escape(s[0]) + Quoted(s[1..])
  }

  function Serialize(j: Json): string
    decreases j, 1, 0
  {
    match j
    case Null => "null"
    case Bool(b) => if b then "true" else "false"
    case Number(token) => token
    case Str(s) => ['\"'] + Quoted(s)
    case Arr(items) => ['['] + SerializeItems(j, items, true)
    case Obj(members) => ['{'] + SerializeMembers(j, members, true)
  }

  function SerializeItems(within: Json, items: seq<Json>, first: bool): string
    requires forall i :: i in items ==> i < within
    decreases within, 0, |items|
  {
    if items == [] then [']']
    else
      assert items[0] in items && forall i :: i in items[1..] ==> i in items;
      (if first then [] else [',']) + Serialize(items[0]) + SerializeItems(within, items[1..], false)
  }

  function SerializeMembers(within: Json, members: map<string, Json>, first: bool): string
    requires forall k :: k in members ==> members[k] < within
    decreases within, 0, |members|
  {
    if members == map[] then ['}']
    else
      var k := LeastKey(members.Keys);
      assert |members - {k}| < |members| by { Shrinks(members, k); }
      Member(if first then "" else ",", Quoted(k), Serialize(members[k]),
             SerializeMembers(within, members - {k}, false))
  }

  function Member(separator: string, key: string, value: string, rest: string): string {
    separator + ['\"'] + key + [':'] + value + rest
  }

  lemma Shrinks(members: map<string, Json>, k: string)
    requires k in members
    ensures |members - {k}| < |members|
  {
    assert (members - {k}).Keys == members.Keys - {k};
    assert |(members - {k}).Keys| == |members - {k}| && |members.Keys| == |members|;
  }

  // ------------------------------------------------------------------------------------------
  // One text, one value
  // ------------------------------------------------------------------------------------------

  /** What may follow a value inside a larger text. */
  predicate Delimited(rest: string) {
    rest == "" || rest[0] == ',' || rest[0] == ']' || rest[0] == '}'
  }

  /** Every escape is one of the standard's, and its character is read back from it. */
  lemma EscapeReadsBack(c: char, u: string)
    ensures Escape(c) != "" && Escape(c)[0] != '\"' && ReadChar(Escape(c) + u) == Reads(c, u)
  {
    var t := Escape(c) + u;
    if |Escape(c)| == 1 {
      assert t[1..] == u;
    } else if |Escape(c)| == 2 {
      assert t[2..] == u;
    } else {
      var h := t[2..];
      assert h == ['0', '0', HexDigit(c as int / 16), HexDigit(c as int % 16)] + u;
      assert CodeUnit(h) == Some(c as int);
      assert h[4..] == u;
    }
  }

  lemma {:induction false} QuotedReadsBack(s: string, u: string)
    ensures ReadString(Quoted(s) + u) == Reads(s, u)
  {
    if s == "" {
      assert (Quoted(s) + u)[1..] == u;
    } else {
      var rest := Quoted(s[1..]) + u;
      assert Quoted(s) + u == Escape(s[0]) + rest;
      EscapeReadsBack(s[0], rest);
      assert (Escape(s[0]) + rest)[0] == Escape(s[0])[0];
      QuotedReadsBack(s[1..], u);
      assert [s[0]] + s[1..] == s;
    }
  }

  predicate StartsValue(c: char) {
    c == 'n' || c == 't' || c == 'f' || c == '\"' || c == '[' || c == '{' || '0' <= c <= '9' || c == '-'
  }

  lemma SerializeStarts(j: Json)
    ensures Serialize(j) != "" && StartsValue(Serialize(j)[0])
  {
  }

  lemma {:induction false} NumberIsMaximal(token: string, u: string)
    requires Delimited(u) && forall i :: 0 <= i < |token| ==> NumberChar(token[i])
    ensures NumberLength(token + u) == |token|
  {
    if token == "" {
      assert token + u == u;
    } else {
      assert (token + u)[1..] == token[1..] + u;
      NumberIsMaximal(token[1..], u);
    }
  }

  lemma WordReadsBack(j: Json, u: string)
    requires j.Null? || j.Bool?
    ensures ReadValue(Serialize(j) + u) == Reads(j, u)
  {
    var w := Serialize(j);
    var t := w + u;
    assert t[0] == w[0] && t[|w|..] == u && t[..|w|] == w;
    assert "null" <= t <==> j.Null?;
    assert "true" <= t <==> j == Bool(true);
  }

  lemma NumberReadsBack(token: NumberToken, u: string)
    requires Delimited(u)
    ensures ReadValue(token + u) == Reads(Number(token), u)
  {
    var t := token + u;
    NumberIsMaximal(token, u);
    assert t[0] == token[0] && t[..|token|] == token && t[|token|..] == u;
    assert !("null" <= t) && !("true" <= t) && !("false" <= t);
  }

  lemma ReadsItem(first: bool, text: string, item: Json, rest: string, items: seq<Json>, u: string)
    requires text != "" && StartsValue(text[0])
    requires ReadValue(text) == Reads(item, rest) && ReadItems(rest, false) == Reads(items, u)
    ensures ReadItems((if first then "" else ",") + text, first) == Reads([item] + items, u)
  {
    var t := (if first then "" else ",") + text;
    assert Skip(t) == t && (if first then t else t[1..]) == text;
  }

  lemma ReadsMember(
      first: bool, name: string, k: string, value: string, v: Json, rest: string, members: map<string, Json>,
      u: string)
    requires ReadString(name) == Reads(k, [':'] + value)
    requires ReadValue(value) == Reads(v, rest) && ReadMembers(rest, false) == Reads(members, u)
    ensures ReadMembers((if first then "" else ",") + (['\"'] + name), first) == Reads(map[k := v] + members, u)
  {
    var t := (if first then "" else ",") + (['\"'] + name);
    assert Skip(t) == t && (if first then t else t[1..]) == ['\"'] + name;
    assert Skip(['\"'] + name) == ['\"'] + name && (['\"'] + name)[1..] == name;
    assert Skip([':'] + value) == [':'] + value && ([':'] + value)[1..] == value;
  }

  /** What is written is read back from the front of any text it is written to. */
  lemma {:induction false} ReadsBack(j: Json, u: string)
    requires Delimited(u)
    ensures ReadValue(Serialize(j) + u) == Reads(j, u)
    decreases j, 1, 0
  {
    match j {
      case Number(token) =>
        NumberReadsBack(token, u);
      case Str(s) =>
        QuotedReadsBack(s, u);
        Behind('\"', Quoted(s), u);
      case Arr(items) =>
        ItemsReadBack(j, items, true, u);
        Behind('[', SerializeItems(j, items, true), u);
      case Obj(members) =>
        MembersReadBack(j, members, true, u);
        Behind('{', SerializeMembers(j, members, true), u);
      case _ =>
        WordReadsBack(j, u);
    }
  }

  lemma Behind(c: char, x: string, u: string)
    ensures [c] + x + u == [c] + (x + u) && ([c] + x + u)[1..] == x + u && ([c] + x + u)[0] == c
  {
  }

  /** A nonempty array body: separator, first item, the other items. */
  lemma ItemsSplit(within: Json, s: seq<Json>, first: bool, u: string)
    requires s != [] && forall i :: i in s ==> i < within
    ensures s[0] in s && forall i :: i in s[1..] ==> i in s
    ensures var rest := SerializeItems(within, s[1..], false) + u;
      Delimited(rest) &&
      SerializeItems(within, s, first) + u == (if first then "" else ",") + (Serialize(s[0]) + rest)
  {
    assert s[0] in s && forall i :: i in s[1..] ==> i in s;
    ItemsStart(within, s[1..], false);
    Regroup(if first then "" else ",", Serialize(s[0]), SerializeItems(within, s[1..], false), u);
  }

  lemma Regroup(f: string, x: string, r: string, u: string)
    ensures (f + x + r) + u == f + (x + (r + u))
  {
  }

  lemma {:induction false} ItemsReadBack(within: Json, items: seq<Json>, first: bool, u: string)
    requires forall i :: i in items ==> i < within
    ensures ReadItems(SerializeItems(within, items, first) + u, first) == Reads(items, u)
    decreases within, 0, |items|
  {
    if items == [] {
      Behind(']', "", u);
    } else {
      ItemsSplit(within, items, first, u);
      var rest := SerializeItems(within, items[1..], false) + u;
      ReadsBack(items[0], rest);
      ItemsReadBack(within, items[1..], false, u);
      SerializeStarts(items[0]);
      ReadsItem(first, Serialize(items[0]) + rest, items[0], rest, items[1..], u);
      assert [items[0]] + items[1..] == items;
    }
  }

  lemma ItemsStart(within: Json, items: seq<Json>, first: bool)
    requires forall i :: i in items ==> i < within
    ensures var x := SerializeItems(within, items, first);
      x != "" &&
      if items == [] then x[0] == ']' else if first then StartsValue(x[0]) else x[0] == ','
  {
    if items != [] {
      assert items[0] in items;
      SerializeStarts(items[0]);
    }
  }

  lemma MembersStart(within: Json, members: map<string, Json>, first: bool)
    requires forall k :: k in members ==> members[k] < within
    ensures var x := SerializeMembers(within, members, first);
      x != "" && x[0] == if members == map[] then '}' else if first then '\"' else ','
  {
  }

  /** A nonempty object body: separator, quoted least key, colon, its value, the other members. */
  lemma MembersSplit(within: Json, m: map<string, Json>, first: bool, u: string)
    requires m != map[] && forall k :: k in m ==> m[k] < within
    ensures var k := LeastKey(m.Keys);
      var rest := SerializeMembers(within, m - {k}, false) + u;
      Delimited(rest) &&
      SerializeMembers(within, m, first) + u
        == (if first then "" else ",") + (['\"'] + (Quoted(k) + ([':'] + (Serialize(m[k]) + rest))))
  {
    var k := LeastKey(m.Keys);
    Shrinks(m, k);
    MembersStart(within, m - {k}, false);
    RegroupMember(if first then "" else ",", Quoted(k), Serialize(m[k]), SerializeMembers(within, m - {k}, false), u);
  }

  lemma RegroupMember(separator: string, key: string, value: string, rest: string, u: string)
    ensures Member(separator, key, value, rest) + u
         == separator + (['\"'] + (key + ([':'] + (value + (rest + u)))))
  {
  }

  lemma Rebuilt(m: map<string, Json>, k: string)
    requires k in m
    ensures map[k := m[k]] + (m - {k}) == m
  {
  }

  lemma FirstMemberReads(within: Json, m: map<string, Json>, first: bool, u: string)
    requires m != map[] && forall k :: k in m ==> m[k] < within
    requires var k := LeastKey(m.Keys);
      var rest := SerializeMembers(within, m - {k}, false) + u;
      ReadValue(Serialize(m[k]) + rest) == Reads(m[k], rest) && ReadMembers(rest, false) == Reads(m - {k}, u)
    ensures ReadMembers(SerializeMembers(within, m, first) + u, first) == Reads(m, u)
  {
    var k := LeastKey(m.Keys);
    var rest := SerializeMembers(within, m - {k}, false) + u;
    var value := Serialize(m[k]) + rest;
    MembersSplit(within, m, first, u);
    QuotedReadsBack(k, [':'] + value);
    ReadsMember(first, Quoted(k) + ([':'] + value), k, value, m[k], rest, m - {k}, u);
    Rebuilt(m, k);
  }

  lemma {:induction false} MembersReadBack(within: Json, m: map<string, Json>, first: bool, u: string)
    requires forall k :: k in m ==> m[k] < within
    ensures ReadMembers(SerializeMembers(within, m, first) + u, first) == Reads(m, u)
    decreases within, 0, |m|
  {
    if m == map[] {
      Behind('}', "", u);
    } else {
      var k := LeastKey(m.Keys);
      Shrinks(m, k);
      MembersStart(within, m - {k}, false);
      ReadsBack(m[k], SerializeMembers(within, m - {k}, false) + u);
      MembersReadBack(within, m - {k}, false, u);
      FirstMemberReads(within, m, first, u);
    }
  }

  /** Canonical JSON is JSON: a reader gets the value back, and nothing is left over. */
  lemma CanonicalTextReadsBack(j: Json)
    ensures ReadValue(Serialize(j)) == Reads(j, "")
  {
    ReadsBack(j, "");
    assert Serialize(j) + "" == Serialize(j);
  }

  /** It identifies values: equal texts come from equal values, whatever the key order was. */
  lemma CanonicalTextIdentifies(a: Json, b: Json)
    requires Serialize(a) == Serialize(b)
    ensures a == b
  {
    CanonicalTextReadsBack(a);
    CanonicalTextReadsBack(b);
  }

  // ------------------------------------------------------------------------------------------
  // The very text
  // ------------------------------------------------------------------------------------------

  /** At the first place where the two differ, the first has the smaller character. */
  predicate DiffersBelow(a: string, b: string) {
    exists i :: 0 <= i < |a| && i < |b| && a[..i] == b[..i] && a[i] < b[i]
  }

  predicate Precedes(a: string, b: string) {
    a != b && (a <= b || DiffersBelow(a, b))
  }

  lemma SameStart(a: string, b: string)
    requires a != "" && b != "" && a[0] == b[0]
    ensures DiffersBelow(a, b) <==> DiffersBelow(a[1..], b[1..])
    ensures a <= b <==> a[1..] <= b[1..]
  {
    var x, y := a[1..], b[1..];
    assert a == [a[0]] + x && b == [b[0]] + y;
    if DiffersBelow(x, y) {
      var i :| 0 <= i < |x| && i < |y| && x[..i] == y[..i] && x[i] < y[i];
      assert a[..i + 1] == [a[0]] + x[..i] && b[..i + 1] == [b[0]] + y[..i];
    }
    if DiffersBelow(a, b) {
      var i :| 0 <= i < |a| && i < |b| && a[..i] == b[..i] && a[i] < b[i];
      assert x[..i - 1] == a[..i][1..] && y[..i - 1] == b[..i][1..];
    }
  }

  lemma OtherStart(a: string, b: string)
    requires a != "" && b != "" && a[0] != b[0]
    ensures DiffersBelow(a, b) <==> a[0] < b[0]
    ensures !(a <= b)
  {
    assert a[..0] == b[..0];
    forall i | 0 < i <= |a| && i <= |b| ensures a[..i] != b[..i] {
      assert a[..i][0] == a[0] && b[..i][0] == b[0];
    }
  }

  /** The keys are ordered as dictionaries order words, by the numbers of their characters. */
  lemma {:induction false} AtMostExactly(a: string, b: string)
    ensures AtMost(a, b) <==> a <= b || DiffersBelow(a, b)
  {
    if a != "" && b != "" {
      if a[0] == b[0] {
        SameStart(a, b);
        AtMostExactly(a[1..], b[1..]);
      } else {
        OtherStart(a, b);
      }
    }
  }

  predicate InOrder(keys: seq<string>) {
    forall i, j :: 0 <= i < j < |keys| ==> Precedes(keys[i], keys[j])
  }

  function Commas(parts: seq<string>, first: bool): string {
    if parts == [] then "" else (if first then "" else ",") + parts[0] + Commas(parts[1..], false)
  }

  /** Name and value, with nothing but a colon in between. */
  function MemberText(key: string, value: string): string {
    "\"" + Quoted(key) + ":" + value
  }

  function MemberTexts(m: map<string, Json>, keys: seq<string>): seq<string>
    requires forall k :: k in keys ==> k in m
  {
    seq(|keys|, i requires 0 <= i < |keys| => MemberText(keys[i], Serialize(m[keys[i]])))
  }

  /** The text of an object lists all its members in the order of their keys. */
  lemma ObjectText(m: map<string, Json>, keys: seq<string>)
    requires InOrder(keys) && forall k :: k in keys <==> k in m
    ensures Serialize(Obj(m)) == "{" + Commas(MemberTexts(m, keys), true) + "}"
  {
    MembersText(Obj(m), m, keys, true);
  }

  lemma {:induction false} MembersText(within: Json, m: map<string, Json>, keys: seq<string>, first: bool)
    requires InOrder(keys) && forall k :: k in keys <==> k in m
    requires forall k :: k in m ==> m[k] < within
    ensures SerializeMembers(within, m, first) == Commas(MemberTexts(m, keys), first) + "}"
    decreases |keys|
  {
    if keys == [] {
      assert m == map[];
    } else {
      var k, rest := keys[0], keys[1..];
      assert keys[0] in m;
      FirstIsLeast(m, keys);
      assert forall i, j :: 0 <= i < j < |rest| ==> rest[i] == keys[i + 1] && rest[j] == keys[j + 1];
      OthersRemain(m, keys);
      Shrinks(m, k);
      MembersText(within, m - {k}, rest, false);
      FirstMemberText(m, keys, first);
      LeastMemberFirst(within, m, first);
      EndsMember(if first then "" else ",", Quoted(k), Serialize(m[k]), Commas(MemberTexts(m - {k}, rest), false));
    }
  }

  lemma LeastMemberFirst(within: Json, m: map<string, Json>, first: bool)
    requires m != map[] && forall k :: k in m ==> m[k] < within
    ensures var k := LeastKey(m.Keys);
      |m - {k}| < |m| && SerializeMembers(within, m, first) ==
        Member(if first then "" else ",", Quoted(k), Serialize(m[k]), SerializeMembers(within, m - {k}, false))
  {
    Shrinks(m, LeastKey(m.Keys));
  }

  lemma EndsMember(separator: string, key: string, value: string, rest: string)
    ensures Member(separator, key, value, rest + "}") == Member(separator, key, value, rest) + "}"
  {
  }

  lemma FirstMemberText(m: map<string, Json>, keys: seq<string>, first: bool)
    requires keys != [] && (forall k :: k in keys ==> k in m) && forall k :: k in keys[1..] ==> k in m - {keys[0]}
    ensures keys[0] in m && Commas(MemberTexts(m, keys), first) ==
      Member(if first then "" else ",", Quoted(keys[0]), Serialize(m[keys[0]]),
             Commas(MemberTexts(m - {keys[0]}, keys[1..]), false))
  {
    assert keys[0] in m;
    var parts := MemberTexts(m, keys);
    assert parts[0] == MemberText(keys[0], Serialize(m[keys[0]]));
    assert parts[1..] == MemberTexts(m - {keys[0]}, keys[1..]);
    RegroupText(if first then "" else ",", keys[0], Serialize(m[keys[0]]), Commas(parts[1..], false));
  }

  lemma RegroupText(separator: string, key: string, value: string, rest: string)
    ensures separator + MemberText(key, value) + rest == Member(separator, Quoted(key), value, rest)
  {
  }

  lemma FirstIsLeast(m: map<string, Json>, keys: seq<string>)
    requires InOrder(keys) && keys != [] && forall k :: k in keys <==> k in m
    ensures m != map[] && LeastKey(m.Keys) == keys[0]
  {
    assert keys[0] in m;
    forall k | k in m.Keys ensures AtMost(keys[0], k) {
      var i :| 0 <= i < |keys| && keys[i] == k;
      AtMostExactly(keys[0], k);
      if i > 0 {
        assert Precedes(keys[0], keys[i]);
      }
    }
    assert IsLeast(keys[0], m.Keys);
    LeastIsUnique(m.Keys);
  }

  lemma OthersRemain(m: map<string, Json>, keys: seq<string>)
    requires InOrder(keys) && keys != [] && forall k :: k in keys <==> k in m
    ensures forall k :: k in keys[1..] <==> k in m - {keys[0]}
  {
    forall k ensures k in keys[1..] <==> k in m - {keys[0]} {
      if k in keys[1..] {
        var i :| 0 <= i < |keys[1..]| && keys[1..][i] == k;
        assert Precedes(keys[0], keys[i + 1]);
      }
      if k in m && k != keys[0] {
        var i :| 0 <= i < |keys| && keys[i] == k;
        assert keys[1..][i - 1] == k;
      }
    }
  }

  /** Every object has such a list of keys. */
  lemma {:induction false} KeysInOrder(m: map<string, Json>) returns (keys: seq<string>)
    ensures InOrder(keys) && forall k :: k in keys <==> k in m
    decreases |m|
  {
    keys := [];
    if m != map[] {
      var k := LeastKey(m.Keys);
      Shrinks(m, k);
      var rest := KeysInOrder(m - {k});
      keys := [k] + rest;
      PrependKey(k, rest);
    }
  }

  lemma PrependKey(k: string, rest: seq<string>)
    requires InOrder(rest) && forall r :: r in rest ==> AtMost(k, r) && k != r
    ensures InOrder([k] + rest)
  {
    forall j | 0 <= j < |rest| ensures Precedes(k, rest[j]) {
      assert rest[j] in rest;
      AtMostExactly(k, rest[j]);
    }
  }

  function ItemTexts(items: seq<Json>): seq<string> {
    seq(|items|, i requires 0 <= i < |items| => Serialize(items[i]))
  }

  /** The text of an array lists its items. */
  lemma ArrayText(items: seq<Json>)
    ensures Serialize(Arr(items)) == "[" + Commas(ItemTexts(items), true) + "]"
  {
    ItemsText(Arr(items), items, true);
  }

  lemma {:induction false} ItemsText(within: Json, items: seq<Json>, first: bool)
    requires forall i :: i in items ==> i < within
    ensures SerializeItems(within, items, first) == Commas(ItemTexts(items), first) + "]"
    decreases |items|
  {
    if items != [] {
      assert items[0] in items && forall i :: i in items[1..] ==> i in items;
      ItemsText(within, items[1..], false);
      FirstItemText(items, first);
    }
  }

  lemma FirstItemText(items: seq<Json>, first: bool)
    requires items != []
    ensures Commas(ItemTexts(items), first) + "]" ==
      (if first then "" else ",") + Serialize(items[0]) + (Commas(ItemTexts(items[1..]), false) + "]")
  {
    assert ItemTexts(items)[1..] == ItemTexts(items[1..]);
  }

  /**
   Characters are written as they are, the seven that have a short escape in two letters, and the other
   control characters as four hexadecimal digits in lower case.
   */
  lemma EscapeShape(c: char)
    ensures |Escape(c)| ==
      if c == '\"' || c == '\\' || c as int in {8, 9, 10, 12, 13} then 2 else if c as int < 32 then 6 else 1
    ensures |Escape(c)| == 1 ==> Escape(c) == [c]
    ensures |Escape(c)| == 6 ==> forall i :: 2 <= i < 6 ==> '0' <= Escape(c)[i] <= '9' || 'a' <= Escape(c)[i] <= 'f'
  {
  }

  /** The text of an object ends in a closing brace. */
  lemma {:induction false} ObjectTextEnds(within: Json, members: map<string, Json>, first: bool)
    requires forall k :: k in members ==> members[k] < within
    ensures var x := SerializeMembers(within, members, first); x != "" && x[|x| - 1] == '}'
    decreases |members|
  {
    if members != map[] {
      var k := LeastKey(members.Keys);
      Shrinks(members, k);
      ObjectTextEnds(within, members - {k}, false);
    }
  }
}
