/** SQL string literals and VALUES tuples as the seed generator writes them:
    a text is made safe for a single-quoted literal by doubling every `'`, and
    a tuple is `(` items separated by `, ` `)`. The reader here is the
    standard SQL reading of such text (a doubled quote inside a literal stands
    for one quote, a lone quote ends it); it is the partner against which the
    escaping is proved correct. */
module SqlLiteral {
  import opened Wrappers
  import opened Strings

  const Quote: char := '\''

  /** `text.replace("'", "''")`. */
  function Escape(s: string): (r: string)
    ensures Quote !in s ==> r == s
  {
    ReplaceChar(s, Quote, "''")
  }

  /** Reads the body of a literal whose opening quote was already consumed:
      the text up to the first lone quote, with each doubled quote read as one,
      and what follows the closing quote. No closing quote: no literal. */
  function ReadLiteralBody(t: string): (r: Option<(string, string)>)
    ensures r.Some? ==> |r.value.1| < |t|
  {
    if |t| == 0 then None
    else if t[0] == Quote then
      if |t| >= 2 && t[1] == Quote then
        match ReadLiteralBody(t[2..])
        case Some((body, rest)) => Some(([Quote] + body, rest))
        case None => None
      else Some(([], t[1..]))
    else
      match ReadLiteralBody(t[1..])
      case Some((body, rest)) => Some(([t[0]] + body, rest))
      case None => None
  }

  /** Escaping is what makes the round trip work: the escaped text, closed by a
      quote, reads back as the original text, whatever it holds, provided the
      closing quote is not itself followed by a quote. */
  lemma {:induction false} EscapeRoundTrip(s: string, after: string)
    requires after == [] || after[0] != Quote
    ensures ReadLiteralBody(Escape(s) + [Quote] + after) == Some((s, after))
  {
    if |s| == 0 {
      assert Escape(s) + [Quote] + after == [Quote] + after;
    } else {
      EscapeRoundTrip(s[1..], after);
      var u := Escape(s[1..]) + [Quote] + after;
      var head := if s[0] == Quote then "''" else [s[0]];
      EscapeCons(s);
      Assoc3(Escape(s), [Quote], after);
      Assoc3(Escape(s[1..]), [Quote], after);
      Assoc3(head, Escape(s[1..]), [Quote] + after);
      LiteralStep(s[0], u);
      assert [s[0]] + s[1..] == s;
    }
  }

  lemma EscapeCons(s: string)
    requires |s| > 0
    ensures Escape(s) == (if s[0] == Quote then "''" else [s[0]]) + Escape(s[1..])
  {
  }

  lemma Assoc3(a: string, b: string, c: string)
    ensures (a + b) + c == a + (b + c)
  {
  }

  /** Reading one escaped character off the front of a literal body. */
  lemma LiteralStep(c: char, u: string)
    requires ReadLiteralBody(u).Some?
    ensures ReadLiteralBody((if c == Quote then "''" else [c]) + u)
         == Some(([c] + ReadLiteralBody(u).value.0, ReadLiteralBody(u).value.1))
  {
    var t := (if c == Quote then "''" else [c]) + u;
    if c == Quote {
      assert t[2..] == u;
    } else {
      assert t[1..] == u;
    }
  }

  /** A text written between quotes without escaping reads back only up to its
      first quote. */
  lemma {:induction false} UnescapedQuoteCutsLiteral(prefix: string, suffix: string, after: string)
    requires Quote !in prefix
    requires |suffix| > 0 && suffix[0] != Quote
    ensures ReadLiteralBody(prefix + [Quote] + suffix + [Quote] + after) == Some((prefix, suffix + [Quote] + after))
  {
    if |prefix| == 0 {
      var t := prefix + [Quote] + suffix + [Quote] + after;
      assert t == [Quote] + (suffix + [Quote] + after);
      assert t[1] == suffix[0];
    } else {
      UnescapedQuoteCutsLiteral(prefix[1..], suffix, after);
      assert (prefix + [Quote] + suffix + [Quote] + after)[1..] == prefix[1..] + [Quote] + suffix + [Quote] + after;
      assert [prefix[0]] + prefix[1..] == prefix;
    }
  }

  /** One value in a VALUES tuple: a quoted literal, or a bare token such as
      `NULL`, `TRUE` or a number. */
  datatype Item = Quoted(text: string) | Bare(token: string)

  function RenderItem(it: Item): string {
    match it
    case Quoted(text) => [Quote] + Escape(text) + [Quote]
    case Bare(token) => token
  }

  /** A bare token can be read back: non-empty, not starting with a quote, and
      free of the tuple's delimiters. */
  predicate ReadableItem(it: Item) {
    it.Bare? ==> |it.token| > 0 && it.token[0] != Quote && ',' !in it.token && ')' !in it.token
  }

  function RenderEach(items: seq<Item>): seq<string> {
    seq(|items|, i requires 0 <= i < |items| => RenderItem(items[i]))
  }

  function RenderItems(items: seq<Item>): string {
    Join(RenderEach(items), ", ")
  }

  /** A tuple of already-rendered fields: `(f1, f2, ..., fn)`. */
  function TupleText(fields: seq<string>): string {
    "(" + Join(fields, ", ") + ")"
  }

  function RenderTuple(items: seq<Item>): string {
    TupleText(RenderEach(items))
  }

  /** Length of the leading run of characters that are not delimiters. */
  function BareLength(t: string): (n: nat)
    ensures n <= |t|
    ensures forall i :: 0 <= i < n ==> t[i] != ',' && t[i] != ')'
    ensures n < |t| ==> t[n] == ',' || t[n] == ')'
  {
    if |t| == 0 || t[0] == ',' || t[0] == ')' then 0 else 1 + BareLength(t[1..])
  }

  function ReadItem(t: string): (r: Option<(Item, string)>)
    ensures r.Some? ==> |r.value.1| < |t|
  {
    if |t| > 0 && t[0] == Quote then
      match ReadLiteralBody(t[1..])
      case Some((body, rest)) => Some((Quoted(body), rest))
      case None => None
    else
      var n := BareLength(t);
      if n == 0 then None else Some((Bare(t[..n]), t[n..]))
  }

  /** Items after the opening parenthesis, up to and including the closing one. */
  function ReadItems(t: string): (r: Option<(seq<Item>, string)>)
    ensures r.Some? ==> |r.value.1| < |t|
    decreases |t|
  {
    match ReadItem(t)
    case None => None
    case Some((it, rest)) =>
      if StartsWith(rest, ", ") then
        match ReadItems(rest[2..])
        case Some((more, after)) => Some(([it] + more, after))
        case None => None
      else if StartsWith(rest, ")") then Some(([it], rest[1..]))
      else None
  }

  /** Reads one `( ... )` tuple from the front of `t`. */
  function ReadTuple(t: string): (r: Option<(seq<Item>, string)>)
    ensures r.Some? ==> |r.value.1| < |t|
  {
    if StartsWith(t, "(") then ReadItems(t[1..]) else None
  }

  lemma ItemRoundTrip(it: Item, after: string)
    requires ReadableItem(it)
    requires |after| > 0 && (after[0] == ',' || after[0] == ')')
    ensures ReadItem(RenderItem(it) + after) == Some((it, after))
  {
    if it.Quoted? {
      QuotedItemRoundTrip(it.text, after);
    } else {
      BareItemRoundTrip(it.token, after);
    }
  }

  lemma QuotedItemRoundTrip(text: string, after: string)
    requires |after| > 0 && after[0] != Quote
    ensures ReadItem([Quote] + Escape(text) + [Quote] + after) == Some((Quoted(text), after))
  {
    var t := [Quote] + Escape(text) + [Quote] + after;
    EscapeRoundTrip(text, after);
    assert t[1..] == Escape(text) + [Quote] + after;
  }

  lemma BareItemRoundTrip(token: string, after: string)
    requires |token| > 0 && token[0] != Quote && ',' !in token && ')' !in token
    requires |after| > 0 && (after[0] == ',' || after[0] == ')')
    ensures ReadItem(token + after) == Some((Bare(token), after))
  {
    var t := token + after;
    BareRun(token, after);
    assert t[..|token|] == token;
    assert t[|token|..] == after;
  }

  lemma {:induction false} BareRun(token: string, after: string)
    requires ',' !in token && ')' !in token
    requires |after| > 0 && (after[0] == ',' || after[0] == ')')
    ensures BareLength(token + after) == |token|
  {
    if |token| > 0 {
      BareRun(token[1..], after);
      assert (token + after)[1..] == token[1..] + after;
    }
  }

  lemma {:induction false} ItemsRoundTrip(items: seq<Item>, rest: string)
    requires |items| >= 1
    requires forall i :: 0 <= i < |items| ==> ReadableItem(items[i])
    ensures ReadItems(RenderItems(items) + ")" + rest) == Some((items, rest))
  {
    if |items| == 1 {
      SingleItemRoundTrip(items, rest);
    } else {
      ItemsRoundTrip(items[1..], rest);
      ConsItemRoundTrip(items, rest);
    }
  }

  lemma SingleItemRoundTrip(items: seq<Item>, rest: string)
    requires |items| == 1 && ReadableItem(items[0])
    ensures ReadItems(RenderItems(items) + ")" + rest) == Some((items, rest))
  {
    LastItemRoundTrip(items[0], rest);
    assert RenderItems(items) + ")" + rest == RenderItem(items[0]) + (")" + rest);
    assert [items[0]] == items;
  }

  lemma ConsItemRoundTrip(items: seq<Item>, rest: string)
    requires |items| >= 2 && ReadableItem(items[0])
    requires ReadItems(RenderItems(items[1..]) + ")" + rest) == Some((items[1..], rest))
    ensures ReadItems(RenderItems(items) + ")" + rest) == Some((items, rest))
  {
    var b := RenderItems(items[1..]);
    RenderItemsCons(items, rest);
    NextItemRoundTrip(items[0], b + ")" + rest, items[1..], rest);
    assert [items[0]] + items[1..] == items;
  }

  lemma RenderItemsCons(items: seq<Item>, rest: string)
    requires |items| >= 2
    ensures RenderItems(items) + ")" + rest == RenderItem(items[0]) + (", " + (RenderItems(items[1..]) + ")" + rest))
  {
    var a := RenderItem(items[0]);
    var b := RenderItems(items[1..]);
    assert RenderItems(items) == a + ", " + b by {
      var fs := RenderEach(items);
      assert fs[1..] == RenderEach(items[1..]);
    }
    Reassociate(a, ", ", b, ")", rest);
  }

  /** Regrouping a five-part concatenation. */
  lemma Reassociate(a: string, b: string, c: string, d: string, e: string)
    ensures a + b + c + d + e == a + (b + (c + d + e))
  {
  }

  lemma LastItemRoundTrip(it: Item, rest: string)
    requires ReadableItem(it)
    ensures ReadItems(RenderItem(it) + (")" + rest)) == Some(([it], rest))
  {
    var after := ")" + rest;
    ItemRoundTrip(it, after);
    assert after[1..] == rest;
    assert !StartsWith(after, ", ") by { assert after[0] == ')'; }
    assert StartsWith(after, ")") by { assert after[..1] == ")"; }
  }

  lemma NextItemRoundTrip(it: Item, tail: string, more: seq<Item>, rest: string)
    requires ReadableItem(it)
    requires ReadItems(tail) == Some((more, rest))
    ensures ReadItems(RenderItem(it) + (", " + tail)) == Some(([it] + more, rest))
  {
    var after := ", " + tail;
    ItemRoundTrip(it, after);
    assert after[2..] == tail;
    assert StartsWith(after, ", ") by { assert after[..2] == ", "; }
  }

  /** A rendered tuple reads back as its items, leaving what followed it. */
  lemma TupleRoundTrip(items: seq<Item>, rest: string)
    requires |items| >= 1
    requires forall i :: 0 <= i < |items| ==> ReadableItem(items[i])
    ensures ReadTuple(RenderTuple(items) + rest) == Some((items, rest))
  {
    var body := RenderItems(items) + ")" + rest;
    ItemsRoundTrip(items, rest);
    assert RenderTuple(items) + rest == "(" + body;
    ReadTupleOpen(body);
  }

  lemma ReadTupleOpen(body: string)
    ensures ReadTuple("(" + body) == ReadItems(body)
  {
    assert ("(" + body)[..1] == "(";
    assert ("(" + body)[1..] == body;
  }

  /** The body of a multi-row INSERT: the tuples joined by `,\n`, then `;`. */
  function ValuesText(tuples: seq<string>): string {
    Join(tuples, ",\n") + ";"
  }

  function RenderTuples(rows: seq<seq<Item>>): (r: seq<string>)
    ensures |r| == |rows|
    ensures forall i :: 0 <= i < |rows| ==> r[i] == RenderTuple(rows[i])
  {
    if |rows| == 0 then [] else [RenderTuple(rows[0])] + RenderTuples(rows[1..])
  }

  /** Reads tuples separated by `,\n` up to the closing `;`. */
  function ReadValues(t: string): Option<(seq<seq<Item>>, string)>
    decreases |t|
  {
    match ReadTuple(t)
    case None => None
    case Some((items, rest)) =>
      if StartsWith(rest, ",\n") then
        match ReadValues(rest[2..])
        case Some((more, after)) => Some(([items] + more, after))
        case None => None
      else if StartsWith(rest, ";") then Some(([items], rest[1..]))
      else None
  }

  /** Every row is a readable, non-empty tuple. */
  predicate ReadableRows(rows: seq<seq<Item>>) {
    forall i :: 0 <= i < |rows| ==> |rows[i]| >= 1 && forall j :: 0 <= j < |rows[i]| ==> ReadableItem(rows[i][j])
  }

  /** A VALUES body reads back as exactly its rows, in order, one tuple per row. */
  lemma {:induction false} ValuesRoundTrip(rows: seq<seq<Item>>, rest: string)
    requires |rows| >= 1 && ReadableRows(rows)
    ensures ReadValues(ValuesText(RenderTuples(rows)) + rest) == Some((rows, rest))
  {
    if |rows| == 1 {
      LastTupleRoundTrip(rows[0], rest);
      assert ValuesText(RenderTuples(rows)) + rest == RenderTuple(rows[0]) + (";" + rest);
      assert [rows[0]] == rows;
    } else {
      assert ReadableRows(rows[1..]) by {
        forall i | 0 <= i < |rows[1..]| ensures |rows[1..][i]| >= 1 { assert rows[1..][i] == rows[i + 1]; }
      }
      ValuesRoundTrip(rows[1..], rest);
      ConsTupleRoundTrip(rows, rest);
    }
  }

  lemma LastTupleRoundTrip(items: seq<Item>, rest: string)
    requires |items| >= 1 && forall j :: 0 <= j < |items| ==> ReadableItem(items[j])
    ensures ReadValues(RenderTuple(items) + (";" + rest)) == Some(([items], rest))
  {
    var after := ";" + rest;
    TupleRoundTrip(items, after);
    assert after[1..] == rest;
    assert !StartsWith(after, ",\n") by { assert after[0] == ';'; }
    assert StartsWith(after, ";") by { assert after[..1] == ";"; }
  }

  lemma ConsTupleRoundTrip(rows: seq<seq<Item>>, rest: string)
    requires |rows| >= 2 && ReadableRows(rows)
    requires ReadValues(ValuesText(RenderTuples(rows[1..])) + rest) == Some((rows[1..], rest))
    ensures ReadValues(ValuesText(RenderTuples(rows)) + rest) == Some((rows, rest))
  {
    var tail := ValuesText(RenderTuples(rows[1..])) + rest;
    ValuesTextCons(rows, rest);
    NextTupleRoundTrip(rows[0], tail, rows[1..], rest);
    assert [rows[0]] + rows[1..] == rows;
  }

  lemma ValuesTextCons(rows: seq<seq<Item>>, rest: string)
    requires |rows| >= 2
    ensures ValuesText(RenderTuples(rows)) + rest ==
            RenderTuple(rows[0]) + (",\n" + (ValuesText(RenderTuples(rows[1..])) + rest))
  {
    var ts := RenderTuples(rows);
    var a := RenderTuple(rows[0]);
    var j := Join(RenderTuples(rows[1..]), ",\n");
    assert Join(ts, ",\n") == a + ",\n" + j by {
      assert ts[0] == a;
      assert ts[1..] == RenderTuples(rows[1..]);
    }
    Reassociate(a, ",\n", j, ";", rest);
  }

  lemma NextTupleRoundTrip(items: seq<Item>, tail: string, more: seq<seq<Item>>, rest: string)
    requires |items| >= 1 && forall j :: 0 <= j < |items| ==> ReadableItem(items[j])
    requires ReadValues(tail) == Some((more, rest))
    ensures ReadValues(RenderTuple(items) + (",\n" + tail)) == Some(([items] + more, rest))
  {
    var after := ",\n" + tail;
    TupleRoundTrip(items, after);
    assert after[2..] == tail;
    assert StartsWith(after, ",\n") by { assert after[..2] == ",\n"; }
  }
}
