/** Ids for minted events exist that suit any row and any events: what the loader asks of its ids can be met. */
module BeadMinter {
  import opened Wrappers
  import opened BeadLog
  import opened BeadReader
  import opened BeadLoader

  // ----- texts that can be told apart -----

  /** A text that ends where it says. */
  function Quoted(s: string): string {
    if s == "" then "0" else "1" + [s[0]] + Quoted(s[1..])
  }

  lemma {:induction false} QuotedApart(s: string, t: string, x: string, y: string)
    requires Quoted(s) + x == Quoted(t) + y
    ensures s == t && x == y
  {
    var l, r := Quoted(s) + x, Quoted(t) + y;
    assert l[0] == (if s == "" then '0' else '1') && r[0] == (if t == "" then '0' else '1');
    if s == "" {
      assert l[1..] == x && r[1..] == y;
    } else {
      assert l == "1" + [s[0]] + (Quoted(s[1..]) + x) && r == "1" + [t[0]] + (Quoted(t[1..]) + y);
      assert l[1] == s[0] && r[1] == t[0];
      assert l[2..] == Quoted(s[1..]) + x && r[2..] == Quoted(t[1..]) + y;
      QuotedApart(s[1..], t[1..], x, y);
      assert s == [s[0]] + s[1..] && t == [t[0]] + t[1..];
    }
  }

  function Strokes(n: nat): (s: string)
    ensures |s| == n
  {
    seq(n, _ => '|')
  }

  function ValueParts(v: Value): (char, string) {
    match v
    case Text(s) => ('t', s)
    case Opaque(s) => ('o', s)
    case Integer(n) => if n >= 0 then ('+', Strokes(n)) else ('-', Strokes(-n))
  }

  lemma ValuePartsApart(v: Value, w: Value)
    requires ValueParts(v) == ValueParts(w)
    ensures v == w
  {
    if v.Integer? && w.Integer? {
      assert |ValueParts(v).1| == |ValueParts(w).1|;
    }
  }

  /** One field with its value, and then more. */
  function FieldText(n: FieldName, v: Value, more: string): string {
    [if n.Column? then 'c' else 'm'] + (Quoted(n.name) + ([ValueParts(v).0] + (Quoted(ValueParts(v).1) + more)))
  }

  lemma FieldTextApart(n: FieldName, v: Value, x: string, n': FieldName, v': Value, y: string)
    requires FieldText(n, v, x) == FieldText(n', v', y)
    ensures n == n' && v == v' && x == y
  {
    var a, b := [ValueParts(v).0] + (Quoted(ValueParts(v).1) + x), [ValueParts(v').0] + (Quoted(ValueParts(v').1) + y);
    assert FieldText(n, v, x)[0] == (if n.Column? then 'c' else 'm') && FieldText(n', v', y)[0] == (if n'.Column? then 'c' else 'm');
    assert FieldText(n, v, x)[1..] == Quoted(n.name) + a && FieldText(n', v', y)[1..] == Quoted(n'.name) + b;
    QuotedApart(n.name, n'.name, a, b);
    assert a[0] == ValueParts(v).0 && b[0] == ValueParts(v').0;
    assert a[1..] == Quoted(ValueParts(v).1) + x && b[1..] == Quoted(ValueParts(v').1) + y;
    QuotedApart(ValueParts(v).1, ValueParts(v').1, x, y);
    ValuePartsApart(v, v');
  }

  /** The fields in some order. */
  ghost function FieldsText(fields: map<FieldName, Value>): string
    decreases |fields|
  {
    if fields == map[] then ""
    else
      var n :| n in fields;
      FieldText(n, fields[n], FieldsText(Rest(fields, n)))
  }

  function Rest(fields: map<FieldName, Value>, n: FieldName): (rest: map<FieldName, Value>)
    requires n in fields
    ensures |rest| < |fields| && rest[n := fields[n]] == fields
  {
    var rest := fields - {n};
    assert |fields.Keys - {n}| == |fields.Keys| - 1 && rest.Keys == fields.Keys - {n};
    assert |rest| == |rest.Keys| && |fields| == |fields.Keys|;
    rest
  }

  lemma {:induction false} FieldsTextApart(f: map<FieldName, Value>, g: map<FieldName, Value>)
    requires FieldsText(f) == FieldsText(g)
    ensures f == g
    decreases |f|
  {
    if f != map[] && g != map[] {
      var n :| n in f && FieldsText(f) == FieldText(n, f[n], FieldsText(Rest(f, n)));
      var k :| k in g && FieldsText(g) == FieldText(k, g[k], FieldsText(Rest(g, k)));
      FieldTextApart(n, f[n], FieldsText(Rest(f, n)), k, g[k], FieldsText(Rest(g, k)));
      FieldsTextApart(Rest(f, n), Rest(g, k));
    }
  }

  ghost function ChangeText(c: Change): string {
    match c
    case Create(fields) => "n" + FieldsText(fields)
    case LabelAdd(tag) => "l" + tag
    case EdgeAdd(e) => "e" + (Quoted(e.kind) + e.target)
    case SetPhase(phase) => "p" + phase
    case _ => ""
  }

  lemma ChangeTextApart(c: Change, d: Change)
    requires Mintable(c) && Mintable(d) && ChangeText(c) == ChangeText(d)
    ensures c == d
  {
    var s, t := ChangeText(c), ChangeText(d);
    assert s[0] == t[0];
    match c
    case Create(f) =>
      assert s[1..] == FieldsText(f) && t[1..] == FieldsText(d.fields);
      FieldsTextApart(f, d.fields);
    case LabelAdd(tag) => assert s[1..] == tag && t[1..] == d.tag;
    case EdgeAdd(e) =>
      assert s[1..] == Quoted(e.kind) + e.target && t[1..] == Quoted(d.edge.kind) + d.edge.target;
      QuotedApart(e.kind, d.edge.kind, e.target, d.edge.target);
    case SetPhase(phase) => assert s[1..] == phase && t[1..] == d.phase;
  }

  // ----- ids longer than any given one -----

  lemma {:induction false} LongerThanAll(es: set<Event>) returns (n: nat)
    ensures forall e :: e in es ==> |e.stamp.id| < n
    decreases |es|
  {
    n := 0;
    if es != {} {
      var e :| e in es;
      n := LongerThanAll(es - {e});
      if n <= |e.stamp.id| {
        n := |e.stamp.id| + 1;
      }
    }
  }

  /** For every row and all events there are such ids. */
  lemma SomeMinterSuits(row: Row, es: set<Event>)
    ensures exists m :: MintsApart(m, row, es)
  {
    var n := LongerThanAll(es);
    var m: Minter := (c, _) => Strokes(n) + ChangeText(c);
    forall c: Change, d: Change, u | Mintable(c) && Mintable(d) && m(c, u) == m(d, u) ensures c == d {
      assert m(c, u)[n..] == ChangeText(c) && m(d, u)[n..] == ChangeText(d);
      ChangeTextApart(c, d);
    }
    assert MintsApart(m, row, es);
  }

  /** So every batch of acceptable events whose ids name one event each can be loaded, with some ids. */
  lemma SomeMinterLoads(row: Row, batch: set<Event>)
    requires (forall e :: e in batch ==> Acceptable(e.change)) && Identified(DocumentEvents(row) + batch)
    ensures exists m :: Loadable(m, row, batch)
  {
    hide Acceptable, MintsApart, Identified;
    SomeMinterSuits(row, DocumentEvents(row) + batch);
    var m :| MintsApart(m, row, DocumentEvents(row) + batch);
    assert Loadable(m, row, batch);
  }
}
