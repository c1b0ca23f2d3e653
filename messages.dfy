/**
 * The wire codec: a message is one `key: value` line per field, lines joined by a newline.
 * Outbound messages are Python dicts in insertion order (`Message`); what the parser
 * returns is a dict of strings (`map<string, string>`).
 */
module Messages {
  import opened Common
  import opened PyStr

  /** A field value as the protocol produces it: a string, an integer, or Python's `None`. */
  datatype Value = Str(s: string) | Int(i: int) | Null

  /** A dict being sent: its entries in insertion order. */
  type Message = seq<(string, Value)>

  /** Python dict keys are unique. */
  predicate DistinctKeys(m: Message) {
    forall i, j :: 0 <= i < j < |m| ==> m[i].0 != m[j].0
  }

  /** `m.get(k)`. */
  function Get(m: Message, k: string): (r: Option<Value>)
    ensures r.None? <==> forall i :: 0 <= i < |m| ==> m[i].0 != k
  {
    if m == [] then None
    else if m[|m| - 1].0 == k then Some(m[|m| - 1].1)
    else Get(m[..|m| - 1], k)
  }

  /** `f"{v}"` for the values the protocol sends. */
  function Render(v: Value): string {
    match v
    case Str(s) => s
    case Int(i) => IntToString(i)
    case Null => "None"
  }

  /** The line `f"{k}: {v}"`. */
  function Line(k: string, v: Value): string {
    k + ": " + Render(v)
  }

  function Lines(m: Message): seq<string> {
    seq(|m|, i requires 0 <= i < |m| => Line(m[i].0, m[i].1))
  }

  /** `"\n".join(lines)`. */
  function Join(lines: seq<string>): string {
    if |lines| == 0 then ""
    else if |lines| == 1 then lines[0]
    else Join(lines[..|lines| - 1]) + "\n" + lines[|lines| - 1]
  }

  /** What `serialize_message` produces, as text. */
  function Serialized(m: Message): string {
    Join(Lines(m))
  }

  /** `serialize_message`: collect one line per entry, then join them. */
  method SerializeMessage(d: Message) returns (raw: string)
    ensures raw == Serialized(d)
  {
    var lines: seq<string> := [];
    for i := 0 to |d|
      invariant lines == Lines(d[..i])
    {
      lines := lines + [Line(d[i].0, d[i].1)];
    }
    assert d[..|d|] == d;
    raw := Join(lines);
  }

  /** `text.splitlines()`, cutting at every line-break character. */
  function SplitLines(text: string): (r: seq<string>)
    ensures |r| >= 1
  {
    if text == [] then [""]
    else
      var rest := SplitLines(text[1..]);
      if IsLineBreak(text[0]) then [""] + rest
      else [[text[0]] + rest[0]] + rest[1..]
  }

  /** `[ln.strip() for ln in lines if ln.strip()]`. */
  function NonBlank(lines: seq<string>): (r: seq<string>)
    ensures forall i :: 0 <= i < |r| ==> r[i] != [] && NoEdgeSpace(r[i])
  {
    if lines == [] then []
    else
      var head := Strip(lines[0]);
      (if head == [] then [] else [head]) + NonBlank(lines[1..])
  }

  function IndexOf(s: string, c: char): (i: nat)
    requires c in s
    ensures i < |s| && s[i] == c && c !in s[..i]
  {
    if s[0] == c then 0 else 1 + IndexOf(s[1..], c)
  }

  /** One stripped line's effect on `out`: `k, v = ln.split(":", 1); out[k.strip()] = v.strip()`. */
  function Put(out: map<string, string>, ln: string): map<string, string> {
    if ':' !in ln then out
    else
      var i := IndexOf(ln, ':');
      out[Strip(ln[..i]) := Strip(ln[i + 1..])]
  }

  /** The map built by the loop over `lines`, starting from `out`. */
  function Fold(out: map<string, string>, lines: seq<string>): map<string, string> {
    if lines == [] then out else Put(Fold(out, lines[..|lines| - 1]), lines[|lines| - 1])
  }

  /** What `parse_message` returns for a text. */
  function Parsed(text: string): map<string, string> {
    Fold(map[], NonBlank(SplitLines(text)))
  }

  /** `parse_message`: keep the non-blank stripped lines, then fill the dict line by line. */
  method ParseMessage(raw: string) returns (out: map<string, string>)
    ensures out == Parsed(raw)
  {
    var lines := NonBlank(SplitLines(raw));
    out := map[];
    for n := 0 to |lines|
      invariant out == Fold(map[], lines[..n])
    {
      var ln := lines[n];
      assert lines[..n + 1][..n] == lines[..n];
      if ':' in ln {
        var i := IndexOf(ln, ':');
        out := out[Strip(ln[..i]) := Strip(ln[i + 1..])];
      }
    }
    assert lines[..|lines|] == lines;
  }

  /** `make_ack(n)`. */
  function MakeAck(n: int): Message {
    [("message_type", Str("ACK")), ("ack_number", Int(n))]
  }

  /** `int(msg.get(key, "0") or 0)` on a parsed message; `None` where `int()` raises. */
  function IntField(msg: map<string, string>, key: string): Option<int> {
    IntOrZero(GetOr(msg, key, "0"))
  }

  /** A missing or empty field reads as 0, and a field holding `str(n)` reads as `n`. */
  lemma IntFieldReads(msg: map<string, string>, key: string, n: int)
    ensures key !in msg || msg[key] == "" ==> IntField(msg, key) == Some(0)
    ensures key in msg && msg[key] == IntToString(n) ==> IntField(msg, key) == Some(n)
  {
    assert ParseInt("0") == Some(0) by { IntRoundTrip(0); }
    IntRoundTrip(n);
  }

  // ---------------------------------------------------------------------------------------
  // Properties of the line layout

  lemma {:induction false} SplitAppend(a: string, sep: char, b: string)
    requires IsLineBreak(sep)
    ensures SplitLines(a + [sep] + b) == SplitLines(a) + SplitLines(b)
  {
    if a != [] {
      assert (a + [sep] + b)[1..] == a[1..] + [sep] + b;
      SplitAppend(a[1..], sep, b);
    }
  }

  lemma {:induction false} SplitNoBreak(a: string)
    requires NoLineBreak(a)
    ensures SplitLines(a) == [a]
  {
    if a != [] {
      SplitNoBreak(a[1..]);
      assert [a[0]] + a[1..] == a;
    }
  }

  lemma {:induction false} SplitJoin(lines: seq<string>)
    requires |lines| >= 1
    requires forall i :: 0 <= i < |lines| ==> NoLineBreak(lines[i])
    ensures SplitLines(Join(lines)) == lines
  {
    var n := |lines|;
    if n == 1 {
      SplitNoBreak(lines[0]);
    } else {
      SplitJoin(lines[..n - 1]);
      SplitAppend(Join(lines[..n - 1]), '\n', lines[n - 1]);
      SplitNoBreak(lines[n - 1]);
    }
  }

  predicate FieldHasNoBreak(f: (string, Value)) {
    NoLineBreak(f.0) && NoLineBreak(Render(f.1))
  }

  /**
   * `serialize_message` writes exactly one `key: value` line per entry, in insertion order,
   * joined by newlines and without a trailing newline: cutting the text at its line breaks
   * gives back those lines and nothing else.
   */
  lemma SerializedLines(d: Message)
    requires |d| >= 1
    requires forall i :: 0 <= i < |d| ==> FieldHasNoBreak(d[i])
    ensures SplitLines(Serialized(d)) == Lines(d)
    ensures forall i :: 0 <= i < |d| ==> Lines(d)[i] == d[i].0 + ": " + Render(d[i].1)
  {
    var ls := Lines(d);
    forall i | 0 <= i < |ls| ensures NoLineBreak(ls[i]) {
      assert FieldHasNoBreak(d[i]);
    }
    SplitJoin(ls);
  }

  // ---------------------------------------------------------------------------------------
  // Properties of the parser

  lemma {:induction false} NonBlankAppend(a: seq<string>, b: seq<string>)
    ensures NonBlank(a + b) == NonBlank(a) + NonBlank(b)
  {
    if a == [] {
      assert a + b == b;
    } else {
      assert (a + b)[0] == a[0];
      assert (a + b)[1..] == a[1..] + b;
      NonBlankAppend(a[1..], b);
      var h := if Strip(a[0]) == [] then [] else [Strip(a[0])];
      assert h + (NonBlank(a[1..]) + NonBlank(b)) == (h + NonBlank(a[1..])) + NonBlank(b);
    }
  }

  lemma {:induction false} FoldAppend(out: map<string, string>, a: seq<string>, b: seq<string>)
    ensures Fold(out, a + b) == Fold(Fold(out, a), b)
    decreases |b|
  {
    if b == [] {
      assert a + b == a;
    } else {
      assert (a + b)[..|a + b| - 1] == a + b[..|b| - 1];
      assert (a + b)[|a + b| - 1] == b[|b| - 1];
      FoldAppend(out, a, b[..|b| - 1]);
    }
  }

  /** Parsing text that has a line break in it parses the part before, then continues with the part after. */
  lemma ParsedAppend(x: string, sep: char, y: string)
    requires IsLineBreak(sep)
    ensures Parsed(x + [sep] + y) == Fold(Parsed(x), NonBlank(SplitLines(y)))
  {
    SplitAppend(x, sep, y);
    NonBlankAppend(SplitLines(x), SplitLines(y));
    FoldAppend(map[], NonBlank(SplitLines(x)), NonBlank(SplitLines(y)));
  }

  /** A colon survives `strip()` exactly when it is there to begin with. */
  lemma StripKeepsColon(l: string)
    ensures ':' in Strip(l) <==> ':' in l
  {
    var i, j := StripBounds(l);
    assert !IsSpace(':');
    if ':' in l {
      var k :| 0 <= k < |l| && l[k] == ':';
      forall m | 0 <= m < i ensures l[m] != ':' {
        assert IsSpace(l[..i][m]);
      }
      forall m | j <= m < |l| ensures l[m] != ':' {
        assert IsSpace(l[j..][m - j]);
      }
      assert Strip(l)[k - i] == ':';
    }
  }

  /**
   * A line that is blank after stripping, or that has no colon, is ignored wherever it stands:
   * the text parses as if the line were not there.
   */
  lemma ParseIgnoresLine(x: string, sep: char, l: string, y: string)
    requires IsLineBreak(sep) && NoLineBreak(l)
    requires Strip(l) == [] || ':' !in l
    ensures Parsed(x + [sep] + l + [sep] + y) == Parsed(x + [sep] + y)
  {
    ParsedAppend(x, sep, l + [sep] + y);
    assert x + [sep] + l + [sep] + y == x + [sep] + (l + [sep] + y);
    SplitAppend(l, sep, y);
    SplitNoBreak(l);
    NonBlankAppend([l], SplitLines(y));
    StripKeepsColon(l);
    var rest := NonBlank(SplitLines(y));
    if Strip(l) != [] {
      assert NonBlank([l]) == [Strip(l)];
      FoldAppend(Parsed(x), [Strip(l)], rest);
    } else {
      assert NonBlank([l]) == [];
      assert [] + rest == rest;
    }
    ParsedAppend(x, sep, y);
  }

  /** Stripping a line `k:v` strips the front of `k` and the back of `v`; the colon stays. */
  lemma StripColonLine(k: string, v: string)
    ensures Strip(k + ":" + v) == LStrip(k) + ":" + RStrip(v)
  {
    var ln := k + ":" + v;
    LStripSuffix(k);
    RStripPrefix(v);
    var i := |k| - |LStrip(k)|;
    var m := |RStrip(v)|;
    var j := |k| + 1 + m;
    assert ln[..i] == k[..i];
    assert ln[j..] == v[m..];
    var mid := LStrip(k) + ":" + RStrip(v);
    assert ln[i..j] == mid;
    assert !IsSpace(':');
    assert !IsSpace(mid[0]) && !IsSpace(mid[|mid| - 1]);
    StripAt(ln, i, j);
  }

  lemma {:induction false} IndexOfFirst(a: string, b: string)
    requires ':' !in a
    ensures IndexOf(a + ":" + b, ':') == |a|
  {
    if a != [] {
      assert (a + ":" + b)[1..] == a[1..] + ":" + b;
      assert a[0] != ':';
      assert ':' !in a[1..] by {
        forall m | 0 <= m < |a| - 1 ensures a[1..][m] != ':' { assert a[1..][m] == a[m + 1]; }
      }
      IndexOfFirst(a[1..], b);
    }
  }

  lemma StripAfterLStrip(k: string)
    ensures Strip(LStrip(k)) == Strip(k)
  {
    var l := LStrip(k);
    assert LStrip(l) == l;
  }

  lemma StripAfterRStrip(v: string)
    ensures Strip(RStrip(v)) == Strip(v)
  {
    RStripPrefix(v);
    var m := |RStrip(v)|;
    assert v == [] + RStrip(v) + v[m..];
    StripPadded([], RStrip(v), v[m..]);
    assert RStrip(v) + [] == RStrip(v);
    StripPadded([], RStrip(v), []);
  }

  /**
   * One line `k:v` whose key part has no colon: the line is split at that first colon, so
   * the value may hold further colons, and both parts are stored stripped.
   */
  lemma PutLine(out: map<string, string>, k: string, v: string)
    requires ':' !in k
    ensures Strip(k + ":" + v) != []
    ensures NonBlank([k + ":" + v]) == [Strip(k + ":" + v)]
    ensures Put(out, Strip(k + ":" + v)) == out[Strip(k) := Strip(v)]
  {
    StripColonLine(k, v);
    var lk := LStrip(k);
    LStripSuffix(k);
    assert ':' !in lk by {
      forall m | 0 <= m < |lk| ensures lk[m] != ':' { assert lk[m] == k[|k| - |lk| + m]; }
    }
    IndexOfFirst(lk, RStrip(v));
    var t := lk + ":" + RStrip(v);
    assert t[..|lk|] == lk && t[|lk| + 1..] == RStrip(v);
    StripAfterLStrip(k);
    StripAfterRStrip(v);
    assert [k + ":" + v][1..] == [];
  }

  /**
   * Appending a line `k:v` after a line break stores `v.strip()` under `k.strip()`, replacing
   * whatever an earlier line stored there: the last occurrence of a key wins.
   */
  lemma ParseLastLine(x: string, sep: char, k: string, v: string)
    requires IsLineBreak(sep) && ':' !in k && NoLineBreak(k + ":" + v)
    ensures Parsed(x + [sep] + (k + ":" + v)) == Parsed(x)[Strip(k) := Strip(v)]
  {
    ParsedAppend(x, sep, k + ":" + v);
    SplitNoBreak(k + ":" + v);
    PutLine(Parsed(x), k, v);
    assert Fold(Parsed(x), [Strip(k + ":" + v)]) == Put(Fold(Parsed(x), []), Strip(k + ":" + v)) by {
      assert [Strip(k + ":" + v)][..0] == [];
    }
  }

  // ---------------------------------------------------------------------------------------
  // Round trip

  /** The string dict a receiver should see for `d`: every value rendered, later entries winning. */
  function AsStrings(d: Message): map<string, string> {
    if d == [] then map[] else AsStrings(d[..|d| - 1])[d[|d| - 1].0 := Render(d[|d| - 1].1)]
  }

  /** `m.get(k)` is the value of the last entry with key `k`. */
  lemma {:induction false} GetAt(m: Message, i: nat)
    requires i < |m| && forall j :: i < j < |m| ==> m[j].0 != m[i].0
    ensures Get(m, m[i].0) == Some(m[i].1)
  {
    if i < |m| - 1 {
      GetAt(m[..|m| - 1], i);
    }
  }

  /** The receiver finds under a key the rendered value of the last entry with that key. */
  lemma {:induction false} AsStringsGet(d: Message, k: string)
    ensures k in AsStrings(d) <==> Get(d, k).Some?
    ensures Get(d, k).Some? ==> AsStrings(d)[k] == Render(Get(d, k).value)
  {
    if d != [] {
      AsStringsGet(d[..|d| - 1], k);
    }
  }

  /** A field the codec carries unchanged: a trimmed key without colon or line break, and a trimmed one-line value. */
  predicate Transparent(f: (string, Value)) {
    && ':' !in f.0 && NoLineBreak(f.0) && NoEdgeSpace(f.0)
    && NoLineBreak(Render(f.1)) && NoEdgeSpace(Render(f.1))
  }

  lemma {:induction false} LineParts(f: (string, Value))
    requires Transparent(f)
    ensures Line(f.0, f.1) == f.0 + ":" + (" " + Render(f.1))
    ensures Strip(f.0) == f.0 && Strip(" " + Render(f.1)) == Render(f.1)
    ensures NoLineBreak(Line(f.0, f.1))
  {
    StripNoEdge(f.0);
    StripPadded(" ", Render(f.1), []);
    StripNoEdge(Render(f.1));
    assert Render(f.1) + [] == Render(f.1);
    var l := Line(f.0, f.1);
    assert !IsLineBreak(':') && !IsLineBreak(' ');
    forall i | 0 <= i < |l| ensures !IsLineBreak(l[i]) {
      if i < |f.0| { assert l[i] == f.0[i]; }
      else if i >= |f.0| + 2 { assert l[i] == Render(f.1)[i - |f.0| - 2]; }
    }
  }

  lemma SerializedSnoc(d: Message)
    requires |d| >= 2
    ensures Serialized(d) == Serialized(d[..|d| - 1]) + ['\n'] + Line(d[|d| - 1].0, d[|d| - 1].1)
  {
    assert Lines(d)[..|d| - 1] == Lines(d[..|d| - 1]);
  }

  lemma ParsedOneLine(f: (string, Value))
    requires Transparent(f)
    ensures Parsed(Serialized([f])) == map[f.0 := Render(f.1)]
  {
    LineParts(f);
    var l := Line(f.0, f.1);
    assert Lines([f]) == [l];
    assert Serialized([f]) == l;
    SplitNoBreak(l);
    PutLine(map[], f.0, " " + Render(f.1));
    var t := Strip(l);
    assert Fold(map[], [t]) == Put(map[], t) by {
      assert [t][..0] == [];
    }
  }

  /**
   * Round trip: when keys hold no colon and neither keys nor values hold a line break or
   * surrounding whitespace, parsing what `serialize_message` wrote gives every key its
   * rendered value back.
   */
  lemma {:induction false} RoundTrip(d: Message)
    requires forall i :: 0 <= i < |d| ==> Transparent(d[i])
    ensures Parsed(Serialized(d)) == AsStrings(d)
  {
    var n := |d|;
    if n == 0 {
      assert Serialized(d) == "";
    } else if n == 1 {
      ParsedOneLine(d[0]);
      assert d == [d[0]] && d[..0] == [];
    } else {
      var f := d[n - 1];
      assert Transparent(f);
      LineParts(f);
      SerializedSnoc(d);
      RoundTrip(d[..n - 1]);
      ParseLastLine(Serialized(d[..n - 1]), '\n', f.0, " " + Render(f.1));
    }
  }

  /** `str(n)` is one trimmed line. */
  lemma IntStringClean(n: int)
    ensures NoLineBreak(IntToString(n)) && NoEdgeSpace(IntToString(n))
  {
    var s := IntToString(n);
    forall i | 0 <= i < |s| ensures !IsLineBreak(s[i]) && !IsSpace(s[i]) {
      if n < 0 && i == 0 {
        assert s[i] == '-';
      } else {
        assert IsDigit(s[i]);
      }
    }
  }

  lemma AckFieldsTransparent(n: int)
    ensures Transparent(MakeAck(n)[0]) && Transparent(MakeAck(n)[1])
  {
    IntStringClean(n);
  }

  lemma AckParsed(n: int)
    ensures Parsed(Serialized(MakeAck(n))) == map["message_type" := "ACK", "ack_number" := IntToString(n)]
  {
    var d := MakeAck(n);
    AckFieldsTransparent(n);
    RoundTrip(d);
    assert d[..1][..0] == [];
    assert AsStrings(d[..1]) == map[][d[0].0 := Render(d[0].1)];
    assert AsStrings(d) == AsStrings(d[..1])[d[1].0 := Render(d[1].1)];
  }

  /** An acknowledgment survives the wire: the receiver reads type `ACK` and the same number. */
  lemma AckRoundTrip(n: int)
    ensures Parsed(Serialized(MakeAck(n))) == map["message_type" := "ACK", "ack_number" := IntToString(n)]
    ensures ParseInt(Parsed(Serialized(MakeAck(n)))["ack_number"]) == Some(n)
  {
    AckParsed(n);
    IntRoundTrip(n);
  }
}
