/**
 Canonical JSON: object members sorted by key, no white space, one spelling for everything. Two
 printers produce it; a parser reads it back.
 */
module JsonCanonical {
  import opened Results
  import opened JsonValue
  import Text

  // ---------------------------------------------------------------- well-formed values

  predicate NumberChar(c: char) {
    Text.IsDigit(c) || c in "-+.eE"
  }

  /** An optional minus sign and decimal digits. */
  predicate IntegerLexeme(s: string) {
    s != [] && (if s[0] == '-' then s[1..] != [] && Text.AllDigits(s[1..]) else Text.AllDigits(s))
  }

  ghost predicate WellFormedNumber(n: Number) {
    match n
    case Integer(_) => true
    case Float(lexeme) =>
      lexeme != [] && !IntegerLexeme(lexeme) && forall i :: 0 <= i < |lexeme| ==> NumberChar(lexeme[i])
  }

  /** Objects are maps: no key twice. */
  ghost predicate WellFormed(v: Json)
    decreases v
  {
    match v
    case Num(n) => WellFormedNumber(n)
    case Arr(items) => forall i :: 0 <= i < |items| ==> WellFormed(items[i])
    case Obj(entries) => DistinctKeys(entries) && forall i :: 0 <= i < |entries| ==> WellFormed(entries[i].value)
    case _ => true
  }

  // ---------------------------------------------------------------- printing

  function NumberText(n: Number): string {
    match n
    case Integer(v) => if v < 0 then "-" + Text.Decimal(-v) else Text.Decimal(v)
    case Float(lexeme) => lexeme
  }

  function HexDigit(d: nat): char
    requires d < 16
  {
    if d < 10 then Text.DigitChar(d) else 'a' + (d - 10) as char
  }

  function Escape(c: char): string {
    if c == '"' then "\\\""
    else if c == '\\' then "\\\\"
    else if c == 8 as char then "\\b"
    else if c == 9 as char then "\\t"
    else if c == 10 as char then "\\n"
    else if c == 12 as char then "\\f"
    else if c == 13 as char then "\\r"
    else if c < ' ' then "\\u00" + [HexDigit(c as int / 16), HexDigit(c as int % 16)]
    else [c]
  }

  function Escaped(s: string): string {
    if s == [] then "" else Escape(s[0]) + Escaped(s[1..])
  }

  function StringText(s: string): string {
    "\"" + Escaped(s) + "\""
  }

  /** The canonical text of a value. */
  function Canonical(v: Json): string
    decreases v, 2
  {
    match v
    case Null => "null"
    case Bool(flag) => if flag then "true" else "false"
    case Num(n) => NumberText(n)
    case Str(s) => StringText(s)
    case Arr(items) => "[" + JoinItems(items) + "]"
    case Obj(entries) => "{" + JoinMembers(StableSort(entries), v) + "}"
  }

  function JoinItems(items: seq<Json>): string
    decreases items, 0
  {
    if items == [] then ""
    else Canonical(items[0]) + (if |items| == 1 then "" else "," + JoinItems(items[1..]))
  }

  function MemberText(m: Entry): string
    decreases m.value, 3
  {
    StringText(m.key) + ":" + Canonical(m.value)
  }

  function JoinMembers(members: seq<Entry>, ghost parent: Json): string
    requires forall m :: m in members ==> m.value < parent
    decreases parent, 1, |members|
  {
    if members == [] then ""
    else
      MemberText(members[0]) + (if |members| == 1 then "" else "," + JoinMembers(members[1..], parent))
  }

  // ---------------------------------------------------------------- parsing

  function HexValue(c: char): Option<nat> {
    if Text.IsDigit(c) then Some(Text.DigitValue(c))
    else if 97 <= c as int <= 102 then Some(c as int - 87)
    else None
  }

  /** Reads what follows a backslash. */
  function ParseEscape(s: string): (r: Option<(char, string)>)
    ensures r.Some? ==> |r.value.1| < |s|
  {
    if s == [] then None
    else if s[0] == '"' || s[0] == '\\' then Some((s[0], s[1..]))
    else if s[0] == 'b' then Some((8 as char, s[1..]))
    else if s[0] == 't' then Some((9 as char, s[1..]))
    else if s[0] == 'n' then Some((10 as char, s[1..]))
    else if s[0] == 'f' then Some((12 as char, s[1..]))
    else if s[0] == 'r' then Some((13 as char, s[1..]))
    else if |s| >= 5 && s[..3] == "u00" && HexValue(s[3]).Some? && HexValue(s[4]).Some? then
      Some(((HexValue(s[3]).value * 16 + HexValue(s[4]).value) as char, s[5..]))
    else None
  }

  /** Reads string contents up to and including the closing quote. */
  function ParseChars(s: string): (r: Option<(string, string)>)
    ensures r.Some? ==> |r.value.1| < |s|
    decreases |s|
  {
    if s == [] || s[0] < ' ' then None
    else if s[0] == '"' then Some(("", s[1..]))
    else if s[0] == '\\' then
      match ParseEscape(s[1..])
      case None => None
      case Some((c, rest)) =>
        (match ParseChars(rest)
         case None => None
         case Some((tail, after)) => Some(([c] + tail, after)))
    else
      match ParseChars(s[1..])
      case None => None
      case Some((tail, after)) => Some(([s[0]] + tail, after))
  }

  function NumberLength(s: string): (n: nat)
    ensures n <= |s|
  {
    if s == [] || !NumberChar(s[0]) then 0 else 1 + NumberLength(s[1..])
  }

  function ParseNumber(lexeme: string): Number {
    if !IntegerLexeme(lexeme) then Float(lexeme)
    else if lexeme[0] == '-' then Integer(0 - Text.DecimalValue(lexeme[1..]))
    else Integer(Text.DecimalValue(lexeme))
  }

  function ParseValue(s: string): (r: Option<(Json, string)>)
    ensures r.Some? ==> |r.value.1| < |s|
    decreases |s|, 0
  {
    if s == [] then None
    else if s[0] == 'n' then if |s| >= 4 && s[..4] == "null" then Some((Null, s[4..])) else None
    else if s[0] == 't' then if |s| >= 4 && s[..4] == "true" then Some((Bool(true), s[4..])) else None
    else if s[0] == 'f' then if |s| >= 5 && s[..5] == "false" then Some((Bool(false), s[5..])) else None
    else if s[0] == '"' then
      (match ParseChars(s[1..])
       case None => None
       case Some((text, rest)) => Some((Str(text), rest)))
    else if s[0] == '[' then
      if |s| >= 2 && s[1] == ']' then Some((Arr([]), s[2..]))
      else
        (match ParseItems(s[1..])
         case None => None
         case Some((items, rest)) => Some((Arr(items), rest)))
    else if s[0] == '{' then
      if |s| >= 2 && s[1] == '}' then Some((Obj([]), s[2..]))
      else
        (match ParseMembers(s[1..])
         case None => None
         case Some((entries, rest)) => Some((Obj(entries), rest)))
    else
      var n := NumberLength(s);
      if n == 0 then None else Some((Num(ParseNumber(s[..n])), s[n..]))
  }

  /** One or more values and the closing bracket. */
  function ParseItems(s: string): (r: Option<(seq<Json>, string)>)
    ensures r.Some? ==> |r.value.1| < |s|
    decreases |s|, 1
  {
    match ParseValue(s)
    case None => None
    case Some((v, rest)) =>
      if rest != [] && rest[0] == ']' then Some(([v], rest[1..]))
      else if rest != [] && rest[0] == ',' then
        match ParseItems(rest[1..])
        case None => None
        case Some((items, after)) => Some(([v] + items, after))
      else None
  }

  function ParseMember(s: string): (r: Option<(Entry, string)>)
    ensures r.Some? ==> |r.value.1| < |s|
    decreases |s|, 1
  {
    if s == [] || s[0] != '"' then None
    else
      match ParseChars(s[1..])
      case None => None
      case Some((key, rest)) =>
        if rest == [] || rest[0] != ':' then None
        else
          match ParseValue(rest[1..])
          case None => None
          case Some((v, after)) => Some((Entry(key, v), after))
  }

  /** One or more members and the closing brace. */
  function ParseMembers(s: string): (r: Option<(seq<Entry>, string)>)
    ensures r.Some? ==> |r.value.1| < |s|
    decreases |s|, 2
  {
    match ParseMember(s)
    case None => None
    case Some((e, rest)) =>
      if rest != [] && rest[0] == '}' then Some(([e], rest[1..]))
      else if rest != [] && rest[0] == ',' then
        match ParseMembers(rest[1..])
        case None => None
        case Some((entries, after)) => Some(([e] + entries, after))
      else None
  }

  // ---------------------------------------------------------------- the value read back

  /** The same value with the members of every object in key order. */
  function Norm(v: Json): Json
    decreases v, 2
  {
    match v
    case Arr(items) => Arr(NormItems(items))
    case Obj(entries) => Obj(NormMembers(StableSort(entries), v))
    case _ => v
  }

  function NormItems(items: seq<Json>): (r: seq<Json>)
    ensures |r| == |items|
    decreases items, 0
  {
    if items == [] then [] else [Norm(items[0])] + NormItems(items[1..])
  }

  function NormMembers(members: seq<Entry>, ghost parent: Json): (r: seq<Entry>)
    requires forall m :: m in members ==> m.value < parent
    ensures |r| == |members|
    decreases parent, 1, |members|
  {
    if members == [] then []
    else [Entry(members[0].key, Norm(members[0].value))] + NormMembers(members[1..], parent)
  }

  // ---------------------------------------------------------------- round trips

  /** Text that can follow a value inside a document. */
  ghost predicate Boundary(rest: string) {
    rest != [] ==> rest[0] in ",]}"
  }

  predicate NeedsEscape(c: char) {
    c < ' ' || c == '"' || c == '\\'
  }

  lemma EscapeRoundTrip(c: char, rest: string)
    requires NeedsEscape(c)
    ensures Escape(c)[0] == '\\' && ParseEscape(Escape(c)[1..] + rest) == Some((c, rest))
  {
    var s := Escape(c)[1..] + rest;
    if Escape(c)[1] == 'u' {
      var hi, lo := c as int / 16, c as int % 16;
      assert Escape(c)[1..] == "u00" + [HexDigit(hi), HexDigit(lo)];
      assert s[..3] == "u00" && s[3] == HexDigit(hi) && s[4] == HexDigit(lo) && s[5..] == rest;
      assert HexValue(HexDigit(hi)) == Some(hi) && HexValue(HexDigit(lo)) == Some(lo);
    } else {
      assert s[1..] == rest;
    }
  }

  lemma CharRoundTrip(c: char, more: string, t: string, rest: string)
    requires ParseChars(more) == Some((t, rest))
    ensures ParseChars(Escape(c) + more) == Some(([c] + t, rest))
  {
    if NeedsEscape(c) {
      EscapeRoundTrip(c, more);
      assert (Escape(c) + more)[1..] == Escape(c)[1..] + more;
    } else {
      assert (Escape(c) + more)[1..] == more;
    }
  }

  lemma {:induction false} StringRoundTrip(t: string, rest: string)
    ensures ParseChars(Escaped(t) + "\"" + rest) == Some((t, rest))
  {
    if t == [] {
      assert (Escaped(t) + "\"" + rest)[1..] == rest;
    } else {
      StringRoundTrip(t[1..], rest);
      CharRoundTrip(t[0], Escaped(t[1..]) + "\"" + rest, t[1..], rest);
      assert Escaped(t) + "\"" + rest == Escape(t[0]) + (Escaped(t[1..]) + "\"" + rest);
      assert t == [t[0]] + t[1..];
    }
  }

  lemma {:induction false} NumberLengthOf(lexeme: string, rest: string)
    requires forall i :: 0 <= i < |lexeme| ==> NumberChar(lexeme[i])
    requires Boundary(rest)
    ensures NumberLength(lexeme + rest) == |lexeme|
  {
    if lexeme == [] {
      assert lexeme + rest == rest;
    } else {
      assert (lexeme + rest)[1..] == lexeme[1..] + rest;
      NumberLengthOf(lexeme[1..], rest);
    }
  }

  lemma NumberRoundTrip(n: Number)
    requires WellFormedNumber(n)
    ensures NumberText(n) != [] && forall i :: 0 <= i < |NumberText(n)| ==> NumberChar(NumberText(n)[i])
    ensures ParseNumber(NumberText(n)) == n
  {
    match n
    case Integer(v) =>
      if v < 0 {
        assert NumberText(n)[1..] == Text.Decimal(-v);
        Text.DecimalRoundTrip(-v);
      } else {
        Text.DecimalRoundTrip(v);
        assert Text.IsDigit(NumberText(n)[0]);
      }
    case Float(_) =>
  }

  lemma NumberValueRoundTrip(n: Number, rest: string)
    requires WellFormedNumber(n) && Boundary(rest)
    ensures ParseValue(NumberText(n) + rest) == Some((Num(n), rest))
  {
    var text, s := NumberText(n), NumberText(n) + rest;
    NumberRoundTrip(n);
    NumberLengthOf(text, rest);
    assert NumberChar(text[0]) && s[0] == text[0];
    assert s[..|text|] == text && s[|text|..] == rest;
  }

  lemma StringValueRoundTrip(t: string, rest: string)
    ensures ParseValue(StringText(t) + rest) == Some((Str(t), rest))
  {
    assert (StringText(t) + rest)[1..] == Escaped(t) + "\"" + rest;
    StringRoundTrip(t, rest);
  }

  lemma WordRoundTrip(rest: string)
    ensures ParseValue("null" + rest) == Some((Null, rest))
    ensures ParseValue("true" + rest) == Some((Bool(true), rest))
    ensures ParseValue("false" + rest) == Some((Bool(false), rest))
  {
    assert ("null" + rest)[..4] == "null" && ("null" + rest)[4..] == rest;
    assert ("true" + rest)[..4] == "true" && ("true" + rest)[4..] == rest;
    assert ("false" + rest)[..5] == "false" && ("false" + rest)[5..] == rest;
  }

  /** No canonical text begins with a closing bracket or brace. */
  lemma CanonicalHead(v: Json)
    requires WellFormed(v)
    ensures Canonical(v) != [] && Canonical(v)[0] !in "]}"
  {
    if v.Num? {
      NumberRoundTrip(v.number);
    }
  }

  /** How the parser combines the parts of an array or object it has read. */
  lemma LastItem(text: string, v: Json, rest: string)
    requires ParseValue(text + ("]" + rest)) == Some((v, "]" + rest))
    ensures ParseItems(text + "]" + rest) == Some(([v], rest))
  {
    assert text + "]" + rest == text + ("]" + rest);
    assert ("]" + rest)[1..] == rest;
  }

  lemma NextItem(text: string, v: Json, tail: string, items: seq<Json>, rest: string)
    requires ParseValue(text + ("," + (tail + "]" + rest))) == Some((v, "," + (tail + "]" + rest)))
    requires ParseItems(tail + "]" + rest) == Some((items, rest))
    ensures ParseItems(text + ("," + tail) + "]" + rest) == Some(([v] + items, rest))
  {
    AfterComma(text, tail, "]", rest);
    ItemThenComma(text + ("," + (tail + "]" + rest)), v, tail + "]" + rest, items, rest);
  }

  lemma AfterComma(text: string, tail: string, close: string, rest: string)
    ensures text + ("," + tail) + close + rest == text + ("," + (tail + close + rest))
  {
  }

  lemma ItemThenComma(s: string, v: Json, more: string, items: seq<Json>, rest: string)
    requires ParseValue(s) == Some((v, "," + more)) && ParseItems(more) == Some((items, rest))
    ensures ParseItems(s) == Some(([v] + items, rest))
  {
    assert ("," + more)[1..] == more;
  }

  lemma OneMember(key: string, text: string, v: Json, rest: string)
    requires ParseValue(text + rest) == Some((v, rest))
    ensures ParseMember(StringText(key) + ":" + text + rest) == Some((Entry(key, v), rest))
  {
    AfterColon(Escaped(key), text, rest);
    StringRoundTrip(key, ":" + (text + rest));
    KeyThenColon("\"" + (Escaped(key) + "\"" + (":" + (text + rest))), key, text + rest, v, rest);
  }

  lemma AfterColon(escaped: string, text: string, rest: string)
    ensures "\"" + escaped + "\"" + ":" + text + rest == "\"" + (escaped + "\"" + (":" + (text + rest)))
  {
  }

  lemma KeyThenColon(s: string, key: string, more: string, v: Json, rest: string)
    requires s != [] && s[0] == '"' && ParseChars(s[1..]) == Some((key, ":" + more))
    requires ParseValue(more) == Some((v, rest))
    ensures ParseMember(s) == Some((Entry(key, v), rest))
  {
    assert (":" + more)[1..] == more;
  }

  lemma LastMember(text: string, e: Entry, rest: string)
    requires ParseMember(text + ("}" + rest)) == Some((e, "}" + rest))
    ensures ParseMembers(text + "}" + rest) == Some(([e], rest))
  {
    assert text + "}" + rest == text + ("}" + rest);
    assert ("}" + rest)[1..] == rest;
  }

  lemma NextMember(text: string, e: Entry, tail: string, entries: seq<Entry>, rest: string)
    requires ParseMember(text + ("," + (tail + "}" + rest))) == Some((e, "," + (tail + "}" + rest)))
    requires ParseMembers(tail + "}" + rest) == Some((entries, rest))
    ensures ParseMembers(text + ("," + tail) + "}" + rest) == Some(([e] + entries, rest))
  {
    AfterComma(text, tail, "}", rest);
    MemberThenComma(text + ("," + (tail + "}" + rest)), e, tail + "}" + rest, entries, rest);
  }

  lemma MemberThenComma(s: string, e: Entry, more: string, entries: seq<Entry>, rest: string)
    requires ParseMember(s) == Some((e, "," + more)) && ParseMembers(more) == Some((entries, rest))
    ensures ParseMembers(s) == Some(([e] + entries, rest))
  {
    assert ("," + more)[1..] == more;
  }

  lemma Bracketed(text: string, items: seq<Json>, rest: string)
    requires text != [] && text[0] != ']'
    requires ParseItems(text + "]" + rest) == Some((items, rest))
    ensures ParseValue("[" + text + "]" + rest) == Some((Arr(items), rest))
  {
    assert ("[" + text + "]" + rest)[1..] == text + "]" + rest;
  }

  lemma Braced(text: string, entries: seq<Entry>, rest: string)
    requires text != [] && text[0] != '}'
    requires ParseMembers(text + "}" + rest) == Some((entries, rest))
    ensures ParseValue("{" + text + "}" + rest) == Some((Obj(entries), rest))
  {
    assert ("{" + text + "}" + rest)[1..] == text + "}" + rest;
  }

  lemma EmptyContainers(rest: string)
    ensures ParseValue("[" + "" + "]" + rest) == Some((Arr([]), rest))
    ensures ParseValue("{" + "" + "}" + rest) == Some((Obj([]), rest))
  {
    assert ("[" + "" + "]" + rest)[2..] == rest && ("{" + "" + "}" + rest)[2..] == rest;
  }

  /** Parsing the canonical text of a value gives the value back, its members in key order. */
  lemma {:induction false} CanonicalRoundTrip(v: Json, rest: string)
    requires WellFormed(v) && Boundary(rest)
    ensures ParseValue(Canonical(v) + rest) == Some((Norm(v), rest))
    decreases v, 2
  {
    match v
    case Arr(items) =>
      if items == [] {
        EmptyContainers(rest);
      } else {
        CanonicalHead(items[0]);
        ItemsRoundTrip(items, rest);
        Bracketed(JoinItems(items), NormItems(items), rest);
      }
    case Obj(entries) =>
      var members := StableSort(entries);
      if members == [] {
        EmptyContainers(rest);
      } else {
        MembersRoundTrip(members, rest, v);
        Braced(JoinMembers(members, v), NormMembers(members, v), rest);
      }
    case Str(t) => StringValueRoundTrip(t, rest);
    case Num(n) => NumberValueRoundTrip(n, rest);
    case _ => WordRoundTrip(rest);
  }

  lemma {:induction false} ItemsRoundTrip(items: seq<Json>, rest: string)
    requires items != [] && forall i :: 0 <= i < |items| ==> WellFormed(items[i])
    ensures ParseItems(JoinItems(items) + "]" + rest) == Some((NormItems(items), rest))
    decreases items, 0
  {
    var text := Canonical(items[0]);
    if |items| == 1 {
      CanonicalRoundTrip(items[0], "]" + rest);
      LastItem(text, Norm(items[0]), rest);
      assert JoinItems(items) == text;
      assert NormItems(items) == [Norm(items[0])];
    } else {
      CanonicalRoundTrip(items[0], "," + (JoinItems(items[1..]) + "]" + rest));
      ItemsRoundTrip(items[1..], rest);
      NextItem(text, Norm(items[0]), JoinItems(items[1..]), NormItems(items[1..]), rest);
    }
  }

  lemma {:induction false} MemberRoundTrip(m: Entry, rest: string, parent: Json)
    requires WellFormed(m.value) && Boundary(rest) && m.value < parent
    ensures ParseMember(MemberText(m) + rest) == Some((Entry(m.key, Norm(m.value)), rest))
    decreases parent, 0
  {
    CanonicalRoundTrip(m.value, rest);
    OneMember(m.key, Canonical(m.value), Norm(m.value), rest);
  }

  lemma {:induction false} MembersRoundTrip(members: seq<Entry>, rest: string, parent: Json)
    requires members != [] && forall m :: m in members ==> m.value < parent && WellFormed(m.value)
    ensures ParseMembers(JoinMembers(members, parent) + "}" + rest) == Some((NormMembers(members, parent), rest))
    decreases parent, 1, |members|
  {
    var m, e := members[0], Entry(members[0].key, Norm(members[0].value));
    if |members| == 1 {
      MemberRoundTrip(m, "}" + rest, parent);
      LastMember(MemberText(m), e, rest);
      assert JoinMembers(members, parent) == MemberText(m);
      assert NormMembers(members, parent) == [e];
    } else {
      MemberRoundTrip(m, "," + (JoinMembers(members[1..], parent) + "}" + rest), parent);
      MembersRoundTrip(members[1..], rest, parent);
      NextMember(MemberText(m), e, JoinMembers(members[1..], parent), NormMembers(members[1..], parent), rest);
    }
  }

  // ---------------------------------------------------------------- equal texts, equal values

  /** Equality of JSON values, objects compared as maps. */
  ghost predicate SameValue(v: Json, w: Json)
    decreases v
  {
    match v
    case Arr(a) => w.Arr? && |a| == |w.items| && forall i :: 0 <= i < |a| ==> SameValue(a[i], w.items[i])
    case Obj(a) =>
      && w.Obj?
      && (forall i :: 0 <= i < |a| ==>
            exists j ::
              && 0 <= j < |w.entries| && w.entries[j].key == a[i].key
              && SameValue(a[i].value, w.entries[j].value))
      && (forall j :: 0 <= j < |w.entries| ==> HasKey(a, w.entries[j].key))
    case _ => v == w
  }

  lemma {:induction false} NormItemsAt(items: seq<Json>)
    ensures forall i :: 0 <= i < |items| ==> NormItems(items)[i] == Norm(items[i])
  {
    if items != [] {
      NormItemsAt(items[1..]);
    }
  }

  lemma {:induction false} NormMembersAt(members: seq<Entry>, parent: Json)
    requires forall m :: m in members ==> m.value < parent
    ensures forall i :: 0 <= i < |members| ==>
      NormMembers(members, parent)[i] == Entry(members[i].key, Norm(members[i].value))
  {
    if members != [] {
      NormMembersAt(members[1..], parent);
    }
  }

  /** A member of the entry list, found in the sorted list. */
  lemma InSorted(entries: seq<Entry>, e: Entry) returns (k: nat)
    requires e in entries
    ensures k < |StableSort(entries)| && StableSort(entries)[k] == e
  {
    assert e in StableSort(entries);
    k :| 0 <= k < |StableSort(entries)| && StableSort(entries)[k] == e;
  }

  lemma FromSorted(entries: seq<Entry>, k: nat) returns (i: nat)
    requires k < |StableSort(entries)|
    ensures i < |entries| && entries[i] == StableSort(entries)[k]
  {
    assert StableSort(entries)[k] in entries;
    i :| 0 <= i < |entries| && entries[i] == StableSort(entries)[k];
  }

  /** Each member of one object has a partner in an object with the same normal form. */
  lemma MemberPartner(v: Json, w: Json, i: nat) returns (j: nat)
    requires v.Obj? && w.Obj? && Norm(v) == Norm(w) && i < |v.entries|
    ensures j < |w.entries| && w.entries[j].key == v.entries[i].key
    ensures Norm(v.entries[i].value) == Norm(w.entries[j].value)
  {
    var s, t := StableSort(v.entries), StableSort(w.entries);
    NormMembersAt(s, v);
    NormMembersAt(t, w);
    var k := InSorted(v.entries, v.entries[i]);
    j := FromSorted(w.entries, k);
    assert NormMembers(s, v)[k] == NormMembers(t, w)[k];
  }

  lemma {:induction false} NormDetermines(v: Json, w: Json)
    requires Norm(v) == Norm(w)
    ensures SameValue(v, w)
    decreases v
  {
    match v
    case Arr(a) =>
      NormItemsAt(a);
      NormItemsAt(w.items);
      forall i | 0 <= i < |a|
        ensures SameValue(a[i], w.items[i])
      {
        NormDetermines(a[i], w.items[i]);
      }
    case Obj(a) =>
      forall i | 0 <= i < |a|
        ensures exists j :: 0 <= j < |w.entries| && w.entries[j].key == a[i].key
                         && SameValue(a[i].value, w.entries[j].value)
      {
        var j := MemberPartner(v, w, i);
        NormDetermines(a[i].value, w.entries[j].value);
      }
      forall j | 0 <= j < |w.entries|
        ensures HasKey(a, w.entries[j].key)
      {
        var i := MemberPartner(w, v, j);
      }
    case _ =>
  }

  lemma {:induction false} JoinItemsCongruent(a: seq<Json>, b: seq<Json>)
    requires |a| == |b| && forall i :: 0 <= i < |a| ==> Canonical(a[i]) == Canonical(b[i])
    ensures JoinItems(a) == JoinItems(b)
  {
    if a != [] {
      JoinItemsCongruent(a[1..], b[1..]);
    }
  }

  lemma {:induction false} JoinMembersCongruent(a: seq<Entry>, b: seq<Entry>, v: Json, w: Json)
    requires forall m :: m in a ==> m.value < v
    requires forall m :: m in b ==> m.value < w
    requires |a| == |b| && forall i :: 0 <= i < |a| ==> MemberText(a[i]) == MemberText(b[i])
    ensures JoinMembers(a, v) == JoinMembers(b, w)
  {
    if a != [] {
      JoinMembersCongruent(a[1..], b[1..], v, w);
    }
  }

  lemma {:induction false} SameMemberText(v: Json, w: Json, k: nat)
    requires WellFormed(v) && WellFormed(w) && SameValue(v, w) && v.Obj?
    requires |StableSort(v.entries)| == |StableSort(w.entries)| && k < |StableSort(v.entries)|
    requires StableSort(v.entries)[k].key == StableSort(w.entries)[k].key
    ensures MemberText(StableSort(v.entries)[k]) == MemberText(StableSort(w.entries)[k])
    decreases v, 0
  {
    var i := FromSorted(v.entries, k);
    var l := FromSorted(w.entries, k);
    var j :| 0 <= j < |w.entries| && w.entries[j].key == v.entries[i].key
             && SameValue(v.entries[i].value, w.entries[j].value);
    assert j == l;
    SameCanonical(v.entries[i].value, w.entries[j].value);
  }

  lemma {:induction false} SameCanonical(v: Json, w: Json)
    requires WellFormed(v) && WellFormed(w) && SameValue(v, w)
    ensures Canonical(v) == Canonical(w)
    decreases v, 1
  {
    match v
    case Arr(a) =>
      forall i | 0 <= i < |a|
        ensures Canonical(a[i]) == Canonical(w.items[i])
      {
        SameCanonical(a[i], w.items[i]);
      }
      JoinItemsCongruent(a, w.items);
    case Obj(a) =>
      var s, t := StableSort(a), StableSort(w.entries);
      SameSortedKeys(a, w.entries);
      forall k | 0 <= k < |s|
        ensures MemberText(s[k]) == MemberText(t[k])
      {
        SameMemberText(v, w, k);
      }
      JoinMembersCongruent(s, t, v, w);
    case _ =>
  }

  lemma SameSortedKeys(a: seq<Entry>, b: seq<Entry>)
    requires DistinctKeys(a) && DistinctKeys(b)
    requires forall i :: 0 <= i < |a| ==> HasKey(b, a[i].key)
    requires forall j :: 0 <= j < |b| ==> HasKey(a, b[j].key)
    ensures |StableSort(a)| == |StableSort(b)|
    ensures forall k :: 0 <= k < |StableSort(a)| ==> StableSort(a)[k].key == StableSort(b)[k].key
  {
    StableSortIncreases(a);
    StableSortIncreases(b);
    forall key
      ensures HasKey(StableSort(a), key) <==> HasKey(StableSort(b), key)
    {
      SameKeys(a, StableSort(a), key);
      SameKeys(StableSort(a), a, key);
      SameKeys(b, StableSort(b), key);
      SameKeys(StableSort(b), b, key);
    }
    SortedKeysAgree(StableSort(a), StableSort(b));
  }

  /** Equal canonical texts mean equal values, and equal values - whatever the order their object
      members are listed in - have equal canonical texts. */
  lemma CanonicalIsFaithful(v: Json, w: Json)
    requires WellFormed(v) && WellFormed(w)
    ensures Canonical(v) == Canonical(w) <==> SameValue(v, w)
  {
    if Canonical(v) == Canonical(w) {
      CanonicalRoundTrip(v, "");
      CanonicalRoundTrip(w, "");
      NormDetermines(v, w);
    } else if SameValue(v, w) {
      SameCanonical(v, w);
    }
  }

  // ---------------------------------------------------------------- the two printers

  /** What is still to be printed once the first `i` parts are out. */
  ghost function ItemsTail(items: seq<Json>, i: nat): string
    requires i <= |items|
  {
    if i == |items| then "" else Separator(i) + JoinItems(items[i..])
  }

  ghost function MembersTail(members: seq<Entry>, parent: Json, i: nat): string
    requires i <= |members| && forall m :: m in members ==> m.value < parent
  {
    if i == |members| then "" else Separator(i) + JoinMembers(members[i..], parent)
  }

  lemma ItemsHead(items: seq<Json>, i: nat)
    requires i < |items|
    ensures JoinItems(items[i..]) == Canonical(items[i]) + ItemsTail(items, i + 1)
  {
    assert items[i..][1..] == items[i + 1..];
  }

  /** What is in front of part `i`. */
  function Separator(i: nat): string {
    if i > 0 then "," else ""
  }

  /** Printing one more part moves it from the tail to the output. */
  lemma ItemPrinted(before: string, after: string, items: seq<Json>, i: nat)
    requires i < |items| && after == before + Separator(i) + Canonical(items[i])
    ensures after + ItemsTail(items, i + 1) == before + ItemsTail(items, i)
  {
    ItemsHead(items, i);
    Regroup(before, Separator(i), Canonical(items[i]), ItemsTail(items, i + 1));
  }

  lemma Regroup(before: string, sep: string, text: string, tail: string)
    ensures before + sep + text + tail == before + (sep + (text + tail))
    ensures before + sep + text + tail == before + (sep + text + tail)
  {
  }

  lemma MembersHead(members: seq<Entry>, parent: Json, i: nat)
    requires i < |members| && forall m :: m in members ==> m.value < parent
    ensures JoinMembers(members[i..], parent) == MemberText(members[i]) + MembersTail(members, parent, i + 1)
  {
    assert members[i..][1..] == members[i + 1..];
  }

  lemma MemberPrinted(before: string, after: string, members: seq<Entry>, parent: Json, i: nat)
    requires i < |members| && forall m :: m in members ==> m.value < parent
    requires after == before + Separator(i) + MemberText(members[i])
    ensures after + MembersTail(members, parent, i + 1) == before + MembersTail(members, parent, i)
  {
    MembersHead(members, parent, i);
    Regroup(before, Separator(i), MemberText(members[i]), MembersTail(members, parent, i + 1));
  }

  /** Before the first part everything is still to be printed, after the last nothing. */
  lemma ItemsEnds(items: seq<Json>, start: string, out: string)
    ensures start + ItemsTail(items, 0) == start + JoinItems(items) && out + ItemsTail(items, |items|) == out
  {
    assert items[0..] == items;
    NothingAround(JoinItems(items), out);
    if items == [] {
      assert JoinItems(items) == "";
    }
  }

  lemma NothingAround(s: string, out: string)
    ensures "" + s == s && out + "" == out
  {
  }

  lemma MembersEnds(members: seq<Entry>, parent: Json, start: string, out: string)
    requires forall m :: m in members ==> m.value < parent
    ensures start + MembersTail(members, parent, 0) == start + JoinMembers(members, parent)
    ensures out + MembersTail(members, parent, |members|) == out
  {
    assert members[0..] == members;
    NothingAround(JoinMembers(members, parent), out);
    if members == [] {
      assert JoinMembers(members, parent) == "";
    }
  }

  method GatewayArray(items: seq<Json>) returns (out: string)
    requires forall i :: 0 <= i < |items| ==> WellFormed(items[i])
    ensures out == "[" + JoinItems(items) + "]"
    decreases items, 0
  {
    out := "[";
    ghost var whole := out + JoinItems(items);
    ItemsEnds(items, out, out);
    for i := 0 to |items|
      invariant out + ItemsTail(items, i) == whole
    {
      ghost var before := out;
      if i > 0 {
        out := out + ",";
      }
      assert out == before + Separator(i);
      var text := GatewayCanonical(items[i]);
      out := out + text;
      ItemPrinted(before, out, items, i);
    }
    ItemsEnds(items, "[", out);
    out := out + "]";
  }

  /** Prints sorted members between braces. */
  method GatewayMembers(sorted: seq<Entry>, ghost v: Json) returns (out: string)
    requires forall m :: m in sorted ==> m.value < v && WellFormed(m.value)
    ensures out == "{" + JoinMembers(sorted, v) + "}"
    decreases v, 0
  {
    out := "{";
    var first := true;
    ghost var whole := out + JoinMembers(sorted, v);
    MembersEnds(sorted, v, out, out);
    for i := 0 to |sorted|
      invariant first <==> i == 0
      invariant out + MembersTail(sorted, v, i) == whole
    {
      ghost var before := out;
      if !first {
        out := out + ",";
      }
      first := false;
      assert out == before + Separator(i);
      var text := GatewayCanonical(sorted[i].value);
      out := out + (StringText(sorted[i].key) + ":" + text);
      MemberPrinted(before, out, sorted, v, i);
    }
    MembersEnds(sorted, v, "{", out);
    out := out + "}";
  }

  /** The gateway's `canonical_json`: objects are collected into an ordered map. */
  method GatewayCanonical(v: Json) returns (out: string)
    requires WellFormed(v)
    ensures out == Canonical(v)
    decreases v, 1
  {
    match v
    case Null => out := "null";
    case Bool(flag) => out := if flag then "true" else "false";
    case Num(n) => out := NumberText(n);
    case Str(s) => out := StringText(s);
    case Arr(items) => out := GatewayArray(items);
    case Obj(entries) =>
      var sorted := CollectSorted(entries);
      out := GatewayMembers(sorted, v);
  }

  method CardArray(items: seq<Json>) returns (out: string)
    requires forall i :: 0 <= i < |items| ==> WellFormed(items[i])
    ensures out == "[" + JoinItems(items) + "]"
    decreases items, 0
  {
    out := "[";
    ghost var whole := out + JoinItems(items);
    ItemsEnds(items, out, out);
    for i := 0 to |items|
      invariant out + ItemsTail(items, i) == whole
    {
      ghost var before := out;
      if i > 0 {
        out := out + ",";
      }
      assert out == before + Separator(i);
      var text := CardCanonical(items[i]);
      out := out + text;
      ItemPrinted(before, out, items, i);
    }
    ItemsEnds(items, "[", out);
    out := out + "]";
  }

  /** Prints sorted members between braces. */
  method CardMembers(sorted: seq<Entry>, ghost v: Json) returns (out: string)
    requires forall m :: m in sorted ==> m.value < v && WellFormed(m.value)
    ensures out == "{" + JoinMembers(sorted, v) + "}"
    decreases v, 0
  {
    out := "{";
    ghost var whole := out + JoinMembers(sorted, v);
    MembersEnds(sorted, v, out, out);
    for i := 0 to |sorted|
      invariant out + MembersTail(sorted, v, i) == whole
    {
      ghost var before := out;
      if i > 0 {
        out := out + ",";
      }
      assert out == before + Separator(i);
      var text := CardCanonical(sorted[i].value);
      out := out + (StringText(sorted[i].key) + ":" + text);
      MemberPrinted(before, out, sorted, v, i);
    }
    MembersEnds(sorted, v, "{", out);
    out := out + "}";
  }

  /** The agent card signer's `canonical_json`: object entries are sorted in place. */
  method CardCanonical(v: Json) returns (out: string)
    requires WellFormed(v)
    ensures out == Canonical(v)
    decreases v, 1
  {
    match v
    case Null => out := "null";
    case Bool(flag) => out := if flag then "true" else "false";
    case Num(n) => out := NumberText(n);
    case Str(s) => out := StringText(s);
    case Arr(items) => out := CardArray(items);
    case Obj(members) =>
      var entries := new Entry[|members|](i requires 0 <= i < |members| => members[i]);
      assert entries[..] == members;
      SortInPlace(entries);
      out := CardMembers(entries[..], v);
  }
}
