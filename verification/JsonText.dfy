/** JSON texts (RFC 8259, sections 2, 4, 5 and 7) as trees with their layout,
    and a printer. A tree may also carry the damage `drop_trailing_commas`
    exists to undo: a run of commas and whitespace, led by a comma, directly
    before a closing bracket. The grammar is deliberately wider than the RFC
    (any whitespace, any escaped character, any bracket-free scalar), so that a
    fact proved of every tree here holds of every well-formed JSON text. */
module JsonText {
  import opened Sequences
  import opened Text

  datatype Unit = Raw(c: char) | Escape(c: char)

  datatype Key = NoKey | Named(name: seq<Unit>, beforeColon: string, afterColon: string)

  datatype Value =
    | Scalar(lexeme: string)
    | Literal(units: seq<Unit>)
    | Array(items: Entries)
    | Object(members: Entries)

  /** The entries of a container. `damage` sits directly before the bracket. */
  datatype Entries =
    | Close(pad: string, damage: string)
    | Entry(lead: string, key: Key, value: Value, trail: string, rest: Entries)

  predicate RunChar(c: char) {
    c == ',' || IsSpace(c)
  }

  predicate Bracket(c: char) {
    c == '{' || c == '}' || c == '[' || c == ']'
  }

  predicate ScalarChar(c: char) {
    !RunChar(c) && !Bracket(c) && c != '"'
  }

  predicate WellFormedUnits(units: seq<Unit>) {
    forall u | u in units :: u.Raw? ==> u.c != '"' && u.c != '\\'
  }

  predicate WellFormedKey(key: Key) {
    key.Named? ==> WellFormedUnits(key.name) && AllSpace(key.beforeColon) && AllSpace(key.afterColon)
  }

  predicate IsDamage(s: string) {
    s == "" || (s[0] == ',' && forall i | 0 <= i < |s| :: RunChar(s[i]))
  }

  predicate WellFormed(v: Value) {
    match v
    case Scalar(lexeme) => lexeme != "" && forall i | 0 <= i < |lexeme| :: ScalarChar(lexeme[i])
    case Literal(units) => WellFormedUnits(units)
    case Array(items) => WellFormedEntries(items, false)
    case Object(members) => WellFormedEntries(members, true)
  }

  predicate WellFormedEntries(e: Entries, keyed: bool) {
    match e
    case Close(pad, damage) => AllSpace(pad) && IsDamage(damage)
    case Entry(lead, key, value, trail, rest) =>
      && AllSpace(lead) && AllSpace(trail)
      && key.Named? == keyed && WellFormedKey(key)
      && WellFormed(value) && WellFormedEntries(rest, keyed)
  }

  // The printer writes in front of a continuation `rest`.

  function PrintUnits(units: seq<Unit>, rest: string): string {
    if units == [] then "\"" + rest
    else match units[0]
      case Raw(c) => [c] + PrintUnits(units[1..], rest)
      case Escape(c) => ['\\', c] + PrintUnits(units[1..], rest)
  }

  function PrintKey(key: Key, rest: string): string {
    match key
    case NoKey => rest
    case Named(name, before, after) => "\"" + PrintUnits(name, before + ":" + after + rest)
  }

  function Print(v: Value, damaged: bool, rest: string): string {
    match v
    case Scalar(lexeme) => lexeme + rest
    case Literal(units) => "\"" + PrintUnits(units, rest)
    case Array(items) => "[" + PrintEntries(items, true, damaged, "]" + rest)
    case Object(members) => "{" + PrintEntries(members, true, damaged, "}" + rest)
  }

  function PrintEntries(e: Entries, first: bool, damaged: bool, rest: string): string {
    match e
    case Close(pad, damage) => pad + (if damaged then damage else "") + rest
    case Entry(lead, key, value, trail, tail) =>
      (if first then "" else ",") + lead
      + PrintKey(key, Print(value, damaged, trail + PrintEntries(tail, false, damaged, rest)))
  }

  /** The text of a value, on its own. */
  function Render(v: Value, damaged: bool): string {
    Print(v, damaged, "")
  }

  // Printing in front of a continuation is printing, then the continuation.

  lemma {:induction false} PrintUnitsAppends(units: seq<Unit>, rest: string)
    ensures PrintUnits(units, rest) == PrintUnits(units, "") + rest
  {
    if units == [] {
      assert "\"" + "" == "\"";
    } else {
      var after := PrintUnits(units[1..], "");
      PrintUnitsAppends(units[1..], rest);
      match units[0]
      case Raw(c) => Reassociate([c], after, rest);
      case Escape(c) => Reassociate(['\\', c], after, rest);
    }
  }

  lemma PrintKeyAppends(key: Key, rest: string)
    ensures PrintKey(key, rest) == PrintKey(key, "") + rest
  {
    if key.Named? {
      var tail := key.beforeColon + ":" + key.afterColon;
      PrintUnitsAppends(key.name, tail + rest);
      PrintUnitsAppends(key.name, tail + "");
    }
  }

  lemma {:induction false} PrintAppends(v: Value, damaged: bool, rest: string)
    ensures Print(v, damaged, rest) == Render(v, damaged) + rest
    decreases v
  {
    match v
    case Scalar(_) =>
    case Literal(units) => PrintUnitsAppends(units, rest);
    case Array(items) =>
      PrintEntriesAppends(items, true, damaged, "]" + rest);
      PrintEntriesAppends(items, true, damaged, "]");
      var inner := PrintEntries(items, true, damaged, "");
      assert "]" + "" == "]";
      assert inner + ("]" + rest) == (inner + "]") + rest;
    case Object(members) =>
      PrintEntriesAppends(members, true, damaged, "}" + rest);
      PrintEntriesAppends(members, true, damaged, "}");
      var inner := PrintEntries(members, true, damaged, "");
      assert "}" + "" == "}";
      assert inner + ("}" + rest) == (inner + "}") + rest;
  }

  lemma {:induction false} PrintEntriesAppends(e: Entries, first: bool, damaged: bool, rest: string)
    ensures PrintEntries(e, first, damaged, rest) == PrintEntries(e, first, damaged, "") + rest
    decreases e
  {
    match e
    case Close(_, _) =>
    case Entry(lead, key, value, trail, tail) =>
      var after := PrintEntries(tail, false, damaged, "");
      PrintEntriesAppends(tail, false, damaged, rest);
      Reassociate(trail, after, rest);
      PrintAppends(value, damaged, trail + after + rest);
      PrintAppends(value, damaged, trail + after);
      Reassociate(Render(value, damaged), trail + after, rest);
      KeyedAppends((if first then "" else ",") + lead, key, Print(value, damaged, trail + after), rest);
  }

  lemma KeyedAppends(before: string, key: Key, body: string, rest: string)
    ensures before + PrintKey(key, body + rest) == before + PrintKey(key, body) + rest
  {
    PrintKeyAppends(key, body + rest);
    PrintKeyAppends(key, body);
  }
}
