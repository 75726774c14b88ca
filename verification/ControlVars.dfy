/** The text form of Mode 6 variables: key=value items separated by commas. */
module ControlVars {
  import opened Wrappers

  type Vars = seq<(string, string)>

  // ---------- Text helpers ----------

  /** Unicode white space. */
  predicate IsSpace(c: char) {
    var n := c as int;
    9 <= n <= 13 || n == 0x20 || n == 0x85 || n == 0xA0 || n == 0x1680 || 0x2000 <= n <= 0x200A
    || n == 0x2028 || n == 0x2029 || n == 0x202F || n == 0x205F || n == 0x3000
  }

  function Trim(s: string): string {
    if s == "" then ""
    else if IsSpace(s[0]) then Trim(s[1..])
    else if IsSpace(s[|s|-1]) then Trim(s[..|s|-1])
    else s
  }

  function Find(s: string, c: char): (r: Option<nat>)
    ensures r.Some? ==> r.value < |s| && s[r.value] == c && forall i :: 0 <= i < r.value ==> s[i] != c
    ensures r.None? ==> c !in s
  {
    if s == "" then None
    else if s[0] == c then Some(0)
    else
      var r := Find(s[1..], c);
      assert s == [s[0]] + s[1..];
      if r.Some? then Some(r.value + 1) else None
  }

  /** Strips one pair of surrounding quotes. */
  function Unquote(s: string): string {
    if |s| >= 2 && s[0] == '"' && s[|s|-1] == '"' then s[1..|s|-1] else s
  }

  // ---------- The parser ----------

  datatype Scanner = Scanner(vars: Vars, current: string, inQuotes: bool, escaped: bool)

  const START := Scanner([], "", false, false)

  /** The variable in the collected text, if it has an equals sign. */
  function Emit(vars: Vars, current: string): Vars {
    var eq := Find(current, '=');
    if eq.None? then vars
    else vars + [(Trim(current[..eq.value]), Unquote(Trim(current[eq.value + 1..])))]
  }

  function Step(s: Scanner, ch: char): Scanner {
    if s.escaped then s.(current := s.current + [ch], escaped := false)
    else if ch == '\\' then s.(current := s.current + [ch], escaped := true)
    else if ch == '"' then s.(current := s.current + [ch], inQuotes := !s.inQuotes)
    else if ch == ',' && !s.inQuotes then s.(vars := Emit(s.vars, s.current), current := "")
    else s.(current := s.current + [ch])
  }

  function Scan(s: Scanner, text: string): Scanner {
    if text == "" then s else Step(Scan(s, text[..|text|-1]), text[|text|-1])
  }

  function Parse(text: string): Vars {
    var s := Scan(START, text);
    if s.current == "" then s.vars else Emit(s.vars, s.current)
  }

  method ParseMode6Vars(text: string) returns (vars: Vars)
    ensures vars == Parse(text)
  {
    vars := [];
    var current, inQuotes, escaped := "", false, false;
    for i := 0 to |text|
      invariant Scan(START, text[..i]) == Scanner(vars, current, inQuotes, escaped)
    {
      assert text[..i+1][..i] == text[..i];
      var ch := text[i];
      if escaped {
        current := current + [ch];
        escaped := false;
      } else if ch == '\\' {
        current := current + [ch];
        escaped := true;
      } else if ch == '"' {
        current := current + [ch];
        inQuotes := !inQuotes;
      } else if ch == ',' && !inQuotes {
        vars := Emit(vars, current);
        current := "";
      } else {
        current := current + [ch];
      }
    }
    assert text[..|text|] == text;
    if current != "" {
      vars := Emit(vars, current);
    }
  }

  // ---------- The encoder ----------

  function Item(v: (string, string)): string { v.0 + "=" + v.1 }

  function EncodeVarList(vars: Vars): string {
    if vars == [] then ""
    else if |vars| == 1 then Item(vars[0])
    else EncodeVarList(vars[..|vars|-1]) + "," + Item(vars[|vars|-1])
  }

  // ---------- Items that the parser keeps in one piece ----------

  /** Quote and escape state after a text that meets no separating comma; None if it meets one. */
  function QuoteState(text: string): Option<(bool, bool)> {
    if text == "" then Some((false, false))
    else
      var r := QuoteState(text[..|text|-1]);
      var ch := text[|text|-1];
      if r.None? then None
      else
        var (inQuotes, escaped) := r.value;
        if escaped then Some((inQuotes, false))
        else if ch == '\\' then Some((inQuotes, true))
        else if ch == '"' then Some((!inQuotes, false))
        else if ch == ',' && !inQuotes then None
        else Some((inQuotes, false))
  }

  /** The item holds no separating comma and leaves no quote or escape open. */
  predicate Closed(text: string) {
    QuoteState(text) == Some((false, false))
  }

  ghost predicate Parsable(vars: Vars) {
    forall i :: 0 <= i < |vars| ==> '=' !in vars[i].0 && Closed(Item(vars[i]))
  }

  /** What the parser makes of a variable. */
  function Normal(v: (string, string)): (string, string) {
    (Trim(v.0), Unquote(Trim(v.1)))
  }

  function NormalAll(vars: Vars): (r: Vars)
    ensures |r| == |vars|
  {
    seq(|vars|, i requires 0 <= i < |vars| => Normal(vars[i]))
  }

  lemma {:induction false} ScanAppend(s: Scanner, a: string, b: string)
    ensures Scan(s, a + b) == Scan(Scan(s, a), b)
  {
    if b == "" {
      assert a + b == a;
    } else {
      ScanAppend(s, a, b[..|b|-1]);
      assert (a + b)[..|a + b|-1] == a + b[..|b|-1];
    }
  }

  /** A text without separating comma is collected whole. */
  lemma {:induction false} ScanCollects(vars: Vars, text: string)
    requires QuoteState(text).Some?
    ensures Scan(Scanner(vars, "", false, false), text)
         == Scanner(vars, text, QuoteState(text).value.0, QuoteState(text).value.1)
  {
    if text != "" {
      ScanCollects(vars, text[..|text|-1]);
      assert text == text[..|text|-1] + [text[|text|-1]];
    }
  }

  lemma {:induction false} FindUnique(a: string, c: char, b: string)
    requires c !in a
    ensures Find(a + [c] + b, c) == Some(|a|)
  {
    var s := a + [c] + b;
    assert s[|a|] == c;
    forall i | 0 <= i < |a| ensures s[i] != c {
      assert s[i] == a[i];
    }
    var r := Find(s, c);
    assert r.Some?;
  }

  lemma EmitItem(vars: Vars, v: (string, string))
    requires '=' !in v.0
    ensures Emit(vars, Item(v)) == vars + [Normal(v)]
  {
    FindUnique(v.0, '=', v.1);
    assert Item(v)[..|v.0|] == v.0 && Item(v)[|v.0| + 1..] == v.1;
  }

  lemma NormalSnoc(vars: Vars, v: (string, string))
    ensures NormalAll(vars + [v]) == NormalAll(vars) + [Normal(v)]
  {
  }

  /** A comma and one more item's text: the item collected so far is emitted, the new one collected. */
  lemma {:induction false} ScanMore(done: Vars, prev: (string, string), text: string)
    requires '=' !in prev.0 && Closed(text)
    ensures Scan(Scanner(NormalAll(done), Item(prev), false, false), "," + text)
         == Scanner(NormalAll(done + [prev]), text, false, false)
  {
    var mid := Scanner(NormalAll(done), Item(prev), false, false);
    ScanAppend(mid, ",", text);
    assert ","[..0] == "";
    assert Scan(mid, ",") == Step(mid, ',');
    EmitItem(NormalAll(done), prev);
    NormalSnoc(done, prev);
    ScanCollects(NormalAll(done + [prev]), text);
  }

  lemma {:induction false} EncodeMore(init: Vars, last: (string, string))
    requires init != []
    ensures EncodeVarList(init + [last]) == EncodeVarList(init) + ("," + Item(last))
  {
    assert (init + [last])[..|init|] == init;
  }

  /** After the encoding of a list, all but the last variable have been emitted and the last
      item has been collected. */
  lemma {:induction false} ScanList(init: Vars, last: (string, string))
    requires Parsable(init) && Closed(Item(last))
    ensures Scan(START, EncodeVarList(init + [last])) == Scanner(NormalAll(init), Item(last), false, false)
    decreases |init|
  {
    if init == [] {
      ScanCollects([], Item(last));
      assert init + [last] == [last];
    } else {
      var done, prev := init[..|init|-1], init[|init|-1];
      assert done + [prev] == init;
      ScanList(done, prev);
      EncodeMore(init, last);
      ScanAppend(START, EncodeVarList(init), "," + Item(last));
      ScanMore(done, prev, Item(last));
    }
  }

  lemma {:induction false} FinishList(init: Vars, last: (string, string))
    requires Parsable(init) && '=' !in last.0 && Closed(Item(last))
    ensures Parse(EncodeVarList(init + [last])) == NormalAll(init + [last])
  {
    ScanList(init, last);
    EmitItem(NormalAll(init), last);
    NormalSnoc(init, last);
  }

  /** Parsing the encoding of any list of closed items gives each variable in normal form. */
  lemma {:induction false} ParseEncoded(vars: Vars)
    requires Parsable(vars)
    ensures Parse(EncodeVarList(vars)) == NormalAll(vars)
  {
    if vars != [] {
      var init, last := vars[..|vars|-1], vars[|vars|-1];
      assert vars == init + [last];
      FinishList(init, last);
    }
  }

  /** So the list survives exactly when every variable is in normal form: no white space at the
      edges and the value not wrapped in quotes. */
  lemma {:induction false} VarsRoundTrip(vars: Vars)
    requires Parsable(vars)
    ensures Parse(EncodeVarList(vars)) == vars <==> forall i :: 0 <= i < |vars| ==> Normal(vars[i]) == vars[i]
  {
    ParseEncoded(vars);
    forall i | 0 <= i < |vars| ensures NormalAll(vars)[i] == Normal(vars[i]) {
    }
  }

  predicate Plain(s: string) {
    forall i :: 0 <= i < |s| ==> s[i] != ',' && s[i] != '"' && s[i] != '\\'
  }

  lemma {:induction false} PlainClosed(s: string)
    requires Plain(s)
    ensures Closed(s)
  {
    if s != "" {
      PlainClosed(s[..|s|-1]);
    }
  }

  ghost predicate NoEdgeSpace(s: string) {
    s == "" || (!IsSpace(s[0]) && !IsSpace(s[|s|-1]))
  }

  /** In particular for plain keys and values: the round trip holds exactly when there is no
      white space at the edges. */
  lemma {:induction false} PlainRoundTrip(vars: Vars)
    requires forall i :: 0 <= i < |vars| ==> Plain(vars[i].0) && Plain(vars[i].1) && '=' !in vars[i].0
    ensures Parse(EncodeVarList(vars)) == vars <==>
            forall i :: 0 <= i < |vars| ==> NoEdgeSpace(vars[i].0) && NoEdgeSpace(vars[i].1)
  {
    forall i | 0 <= i < |vars|
      ensures Closed(Item(vars[i]))
      ensures Normal(vars[i]) == vars[i] <==> NoEdgeSpace(vars[i].0) && NoEdgeSpace(vars[i].1)
    {
      PlainClosed(Item(vars[i]));
      TrimFixed(vars[i].0);
      TrimFixed(vars[i].1);
      PlainUnquote(Trim(vars[i].1), vars[i].1);
    }
    VarsRoundTrip(vars);
  }

  lemma {:induction false} TrimFixed(s: string)
    ensures Trim(s) == s <==> NoEdgeSpace(s)
    ensures |Trim(s)| <= |s| && forall i :: 0 <= i < |Trim(s)| ==> Trim(s)[i] in s
  {
    if s != "" {
      if IsSpace(s[0]) {
        TrimFixed(s[1..]);
        assert forall c :: c in s[1..] ==> c in s;
      } else if IsSpace(s[|s|-1]) {
        TrimFixed(s[..|s|-1]);
        assert forall c :: c in s[..|s|-1] ==> c in s;
      }
    }
  }

  // ---------- White space ----------

  predicate AllSpace(s: string) {
    forall i :: 0 <= i < |s| ==> IsSpace(s[i])
  }

  /** The white space characters of Unicode. */
  lemma WhiteSpace(c: char)
    ensures IsSpace(c) <==>
            || c in "\t\n\r \U{b}\U{c}\U{85}\U{a0}\U{1680}"
            || '\U{2000}' <= c <= '\U{200a}' || c in "\U{2028}\U{2029}\U{202f}\U{205f}\U{3000}"
  {
  }

  /** The text is t with white space around it. */
  predicate Splits(s: string, p: string, t: string, q: string) {
    s == p + t + q && AllSpace(p) && AllSpace(q)
  }

  lemma SplitsFront(s: string, p: string, t: string, q: string)
    requires s != "" && IsSpace(s[0]) && Splits(s[1..], p, t, q)
    ensures Splits(s, [s[0]] + p, t, q)
  {
    assert s == [s[0]] + s[1..];
  }

  lemma SplitsEnd(s: string, p: string, t: string, q: string)
    requires s != "" && IsSpace(s[|s|-1]) && Splits(s[..|s|-1], p, t, q)
    ensures Splits(s, p, t, q + [s[|s|-1]])
  {
    assert s == s[..|s|-1] + [s[|s|-1]];
  }

  /** Trimming takes white space off both ends and nothing else. */
  lemma {:induction false} TrimSplits(s: string) returns (p: string, q: string)
    ensures Splits(s, p, Trim(s), q) && NoEdgeSpace(Trim(s))
  {
    p, q := "", "";
    if s != "" {
      if IsSpace(s[0]) {
        p, q := TrimSplits(s[1..]);
        SplitsFront(s, p, Trim(s), q);
        p := [s[0]] + p;
      } else if IsSpace(s[|s|-1]) {
        p, q := TrimSplits(s[..|s|-1]);
        SplitsEnd(s, p, Trim(s), q);
        q := q + [s[|s|-1]];
      }
    }
  }

  lemma {:induction false} TrimSpace(s: string)
    requires AllSpace(s)
    ensures Trim(s) == ""
  {
    if s != "" {
      TrimSpace(s[1..]);
    }
  }

  /** So it takes off whatever white space was put around a text without any at its edges. */
  lemma {:induction false} TrimPadded(p: string, t: string, q: string)
    requires AllSpace(p) && AllSpace(q) && NoEdgeSpace(t)
    ensures Trim(p + t + q) == t
    decreases |p| + |q|
  {
    var s := p + t + q;
    if t == "" {
      TrimSpace(s);
    } else if p != "" {
      assert s[1..] == p[1..] + t + q;
      TrimPadded(p[1..], t, q);
    } else if q != "" {
      assert s[0] == t[0] && s[..|s|-1] == p + t + q[..|q|-1];
      TrimPadded(p, t, q[..|q|-1]);
    } else {
      assert s == t;
      TrimFixed(t);
    }
  }

  ghost predicate Surrounds(padded: string, s: string) {
    exists p, q :: Splits(padded, p, s, q)
  }

  lemma {:induction false} TrimSurrounded(padded: string, s: string)
    requires Surrounds(padded, s) && NoEdgeSpace(s)
    ensures Trim(padded) == s
  {
    var p, q :| Splits(padded, p, s, q);
    TrimPadded(p, s, q);
  }

  /** White space around keys and values is no part of them. */
  lemma {:induction false} PaddedRoundTrip(padded: Vars, vars: Vars)
    requires |padded| == |vars|
    requires forall i :: 0 <= i < |vars| ==>
               && Plain(padded[i].0) && Plain(padded[i].1) && '=' !in padded[i].0
               && NoEdgeSpace(vars[i].0) && Surrounds(padded[i].0, vars[i].0)
               && NoEdgeSpace(vars[i].1) && Surrounds(padded[i].1, vars[i].1)
    ensures Parse(EncodeVarList(padded)) == vars
  {
    forall i | 0 <= i < |vars|
      ensures Closed(Item(padded[i])) && Normal(padded[i]) == vars[i]
    {
      PlainClosed(Item(padded[i]));
      TrimSurrounded(padded[i].0, vars[i].0);
      TrimSurrounded(padded[i].1, vars[i].1);
      TrimFixed(padded[i].1);
      PlainUnquote(vars[i].1, padded[i].1);
    }
    ParseEncoded(padded);
    assert NormalAll(padded) == vars;
  }

  /** The comma-and-space form. */
  lemma {:induction false} CommaSpace()
    ensures Parse("a=1, b=2") == [("a", "1"), ("b", "2")]
  {
    var padded := [("a", "1"), (" b", "2")];
    assert padded[..1] == [("a", "1")];
    assert EncodeVarList([("a", "1")]) == "a=1";
    assert EncodeVarList(padded) == "a=1, b=2";
    assert Splits("a", "", "a", "") && Splits("1", "", "1", "") && Splits(" b", " ", "b", "")
        && Splits("2", "", "2", "");
    PaddedRoundTrip(padded, [("a", "1"), ("b", "2")]);
  }

  // ---------- Items without an equals sign, and escapes ----------

  /** An item without an equals sign is skipped. */
  lemma {:induction false} FlagSkipped(init: Vars, last: (string, string), flag: string)
    requires Parsable(init) && '=' !in last.0 && Closed(Item(last)) && Closed(flag) && '=' !in flag
    ensures Parse(EncodeVarList(init + [last]) + ("," + flag)) == NormalAll(init + [last])
  {
    ScanList(init, last);
    ScanAppend(START, EncodeVarList(init + [last]), "," + flag);
    ScanMore(init, last, flag);
  }

  /** A text that meets no separating comma is one item, even if a quote or an escape is left open. */
  lemma {:induction false} WholeItem(key: string, value: string)
    requires '=' !in key && QuoteState(key + "=" + value).Some?
    ensures Parse(key + "=" + value) == [Normal((key, value))]
  {
    assert Item((key, value)) == key + "=" + value;
    ScanCollects([], key + "=" + value);
    EmitItem([], (key, value));
  }

  /** So a quote that is not closed stays in the value, with everything after it. */
  lemma {:induction false} OpenQuote(key: string, w: string)
    requires Plain(key) && '=' !in key && NoEdgeSpace(key)
    requires '"' !in w && '\\' !in w && NoEdgeSpace("\"" + w)
    ensures Parse(key + "=" + ("\"" + w)) == [(key, "\"" + w)]
  {
    var v := "\"" + w;
    InsideQuotes(key + "=", w);
    assert key + "=" + v == (key + "=") + "\"" + w;
    WholeItem(key, v);
    TrimFixed(key);
    TrimFixed(v);
    assert |v| >= 2 ==> v[|v|-1] in w;
  }

  /** A backslash keeps the next character from separating or quoting; both stay in the value. */
  lemma {:induction false} EscapedValue(key: string, a: string, c: char, b: string)
    requires Plain(key) && '=' !in key && NoEdgeSpace(key) && Plain(a) && Plain(b)
    requires NoEdgeSpace(a + ['\\', c] + b)
    ensures Parse(key + "=" + (a + ['\\', c] + b)) == [(key, a + ['\\', c] + b)]
  {
    var v := a + ['\\', c] + b;
    EscapedClosed(key + "=" + a, c, b);
    assert Item((key, v)) == key + "=" + a + ['\\', c] + b == key + "=" + v;
    ParseEncoded([(key, v)]);
    TrimFixed(key);
    TrimFixed(v);
    assert v[0] == if a == "" then '\\' else a[0];
    assert Unquote(v) == v;
    NormalOne((key, v));
  }

  lemma {:induction false} EscapedClosed(a: string, c: char, b: string)
    requires Plain(a) && Plain(b)
    ensures Closed(a + ['\\', c] + b)
  {
    var text := a + ['\\', c] + b;
    if b == "" {
      PlainClosed(a);
      var one := a + ['\\'];
      assert text[..|text|-1] == one && one[..|one|-1] == a;
    } else {
      EscapedClosed(a, c, b[..|b|-1]);
      assert text[..|text|-1] == a + ['\\', c] + b[..|b|-1];
    }
  }

  lemma PlainUnquote(t: string, s: string)
    requires Plain(s) && forall i :: 0 <= i < |t| ==> t[i] in s
    ensures Unquote(t) == t
  {
    assert |t| >= 1 ==> t[0] in s;
  }

  /** A quoted value may hold commas: the parser returns what is between the quotes. */
  lemma QuotedValue(key: string, w: string)
    requires Plain(key) && '=' !in key && NoEdgeSpace(key)
    requires '"' !in w && '\\' !in w
    ensures Parse(EncodeVarList([(key, "\"" + w + "\"")])) == [(key, w)]
  {
    var v := "\"" + w + "\"";
    QuotedClosed(key + "=", w);
    assert Item((key, v)) == key + "=" + "\"" + w + "\"";
    ParseEncoded([(key, v)]);
    QuotedNormal(key, w);
    NormalOne((key, v));
  }

  lemma {:induction false} NormalOne(item: (string, string))
    ensures NormalAll([item]) == [Normal(item)]
  {
  }

  lemma {:induction false} QuotedNormal(key: string, w: string)
    requires NoEdgeSpace(key)
    ensures Normal((key, "\"" + w + "\"")) == (key, w)
  {
    var v := "\"" + w + "\"";
    TrimFixed(key);
    TrimFixed(v);
    assert v[1..|v|-1] == w;
  }

  lemma {:induction false} InsideQuotes(prefix: string, w: string)
    requires Plain(prefix) && '"' !in w && '\\' !in w
    ensures QuoteState(prefix + "\"" + w) == Some((true, false))
  {
    var text := prefix + "\"" + w;
    if w == "" {
      PlainClosed(prefix);
      assert text[..|text|-1] == prefix;
    } else {
      InsideQuotes(prefix, w[..|w|-1]);
      assert text[..|text|-1] == prefix + "\"" + w[..|w|-1];
      assert text[|text|-1] == w[|w|-1] && w[|w|-1] in w;
    }
  }

  lemma QuotedClosed(prefix: string, w: string)
    requires Plain(prefix) && '"' !in w && '\\' !in w
    ensures Closed(prefix + "\"" + w + "\"")
  {
    InsideQuotes(prefix, w);
    var text := prefix + "\"" + w + "\"";
    assert text[..|text|-1] == prefix + "\"" + w;
  }
}
