// The HTTP Signature header (internal/api/http_signature_helpers.go) and the string it signs
// (internal/api/protocol_handler.go), after section 2.3 of draft-cavage-http-signatures-12.
module SignatureHeader {
  import opened Wrappers
  import opened Text

  // ---------- Parsing ----------

  // One part sets one parameter, unless it has no equals sign. Only the first equals sign counts.
  function ParsePart(part: string): Option<(string, string)> {
    var trimmed := TrimSpace(part);
    var i := IndexOf(trimmed, '=');
    if i == |trimmed| then None else Some((trimmed[..i], TrimQuotes(trimmed[i + 1..])))
  }

  function Params(parts: seq<string>): map<string, string> {
    if parts == [] then map[]
    else
      var n := |parts| - 1;
      match ParsePart(parts[n])
      case None => Params(parts[..n])
      case Some((key, value)) => Params(parts[..n])[key := value]
  }

  predicate Sets(part: string, key: string) {
    ParsePart(part).Some? && ParsePart(part).value.0 == key
  }

  // The last part that sets the key sets it to this value.
  predicate LastSets(parts: seq<string>, key: string, value: string, i: nat) {
    && i < |parts| && ParsePart(parts[i]) == Some((key, value))
    && forall j | i < j < |parts| :: !Sets(parts[j], key)
  }

  lemma {:induction false} ParamsMeans(parts: seq<string>, key: string, value: string)
    ensures (key in Params(parts) && Params(parts)[key] == value)
        <==> exists i: nat :: LastSets(parts, key, value, i)
  {
    hide ParsePart;
    if parts != [] {
      var n := |parts| - 1;
      ParamsMeans(parts[..n], key, value);
      if Sets(parts[n], key) {
        assert ParsePart(parts[n]) == Some((key, value)) ==> LastSets(parts, key, value, n);
      } else {
        forall i: nat ensures LastSets(parts[..n], key, value, i) <==> LastSets(parts, key, value, i) {
          assert forall j | 0 <= j < n :: parts[..n][j] == parts[j];
        }
      }
    }
  }

  method ParseSignatureHeader(header: string) returns (params: map<string, string>)
    ensures params == Params(Split(header, ','))
  {
    hide TrimSpace, TrimQuotes, Split;
    params := map[];
    var parts := Split(header, ',');
    for n := 0 to |parts|
      invariant params == Params(parts[..n])
    {
      assert parts[..n + 1][..n] == parts[..n];
      var trimmed := TrimSpace(parts[n]);
      var i := IndexOf(trimmed, '=');
      if i < |trimmed| {
        var key, value := trimmed[..i], TrimQuotes(trimmed[i + 1..]);
        params := params[key := value];
      }
    }
    assert parts[..|parts|] == parts;
  }

  // ---------- Printing ----------

  // key="value" with white space around it.
  datatype Item = Item(left: string, key: string, value: string, right: string)

  function PrintItem(x: Item): string {
    x.left + (x.key + "=\"" + x.value + "\"") + x.right
  }

  function PrintItems(items: seq<Item>): seq<string> {
    seq(|items|, i requires 0 <= i < |items| => PrintItem(items[i]))
  }

  function Print(items: seq<Item>): string {
    Join(PrintItems(items), ',')
  }

  predicate UnquotedEnds(s: string) {
    s == "" || (s[0] != '"' && s[|s| - 1] != '"')
  }

  predicate Printable(x: Item) {
    && AllSpace(x.left) && AllSpace(x.right)
    && ',' !in x.key && '=' !in x.key && (x.key != "" ==> !IsSpace(x.key[0]))
    && ',' !in x.value
  }

  lemma PrintedCoreTrims(x: Item)
    requires Printable(x)
    ensures TrimSpace(PrintItem(x)) == x.key + "=\"" + x.value + "\""
  {
    var core := x.key + "=\"" + x.value + "\"";
    assert core[|core| - 1] == '"';
    assert core[0] == if x.key == "" then '=' else x.key[0];
    TrimPadded(x.left, core, x.right, IsSpace);
  }

  lemma CoreSplits(key: string, value: string)
    requires '=' !in key
    ensures var core := key + "=\"" + value + "\"";
            && IndexOf(core, '=') == |key| < |core|
            && core[..|key|] == key && core[|key| + 1..] == "\"" + value + "\""
  {
    hide IndexOf;
    var core := key + "=\"" + value + "\"";
    assert core == key + ("=\"" + value + "\"");
    IndexOfIs(core, '=', |key|);
  }

  // A printed item is read back exactly when its value has no quote at either end.
  lemma ItemRoundTrip(x: Item)
    requires Printable(x)
    ensures ParsePart(PrintItem(x)) == Some((x.key, x.value)) <==> UnquotedEnds(x.value)
    ensures Sets(PrintItem(x), x.key)
  {
    var core := x.key + "=\"" + x.value + "\"";
    PrintedCoreTrims(x);
    assert '=' !in x.key;
    hide TrimSpace, TrimQuotes, PrintItem, Printable, IndexOf;
    CoreSplits(x.key, x.value);
    TrimQuotesUndoesQuoting(x.value);
  }

  lemma PrintedItemHasNoComma(x: Item)
    requires Printable(x)
    ensures ',' !in PrintItem(x)
  {
  }

  function ToMap(items: seq<Item>): map<string, string> {
    if items == [] then map[]
    else ToMap(items[..|items| - 1])[items[|items| - 1].key := items[|items| - 1].value]
  }

  lemma {:induction false} ParamsOfPrinted(items: seq<Item>)
    requires forall i | 0 <= i < |items| :: Printable(items[i]) && UnquotedEnds(items[i].value)
    ensures Params(PrintItems(items)) == ToMap(items)
  {
    hide ParsePart, Printable, PrintItem, UnquotedEnds;
    if items != [] {
      var n := |items| - 1;
      assert PrintItems(items)[..n] == PrintItems(items[..n]);
      ParamsOfPrinted(items[..n]);
      ItemRoundTrip(items[n]);
    }
  }

  // Parsing undoes printing: a comma-joined list of key="value" items, with any white space
  // around the items, is read back as the map it spells; of a repeated key the last value stays.
  lemma ParsingUndoesPrinting(items: seq<Item>)
    requires forall i | 0 <= i < |items| :: Printable(items[i]) && UnquotedEnds(items[i].value)
    ensures Params(Split(Print(items), ',')) == ToMap(items)
  {
    if items == [] {
      assert Split(Print(items), ',') == [""];
      assert ParsePart("") == None;
      assert [""][..0] == [];
    } else {
      forall i | 0 <= i < |items| ensures ',' !in PrintItems(items)[i] {
        PrintedItemHasNoComma(items[i]);
      }
      SplitJoin(PrintItems(items), ',');
      ParamsOfPrinted(items);
    }
  }

  // With distinct keys the map holds every item and nothing else.
  lemma {:induction false} DistinctItemsAreAllKept(items: seq<Item>)
    requires forall i, j | 0 <= i < j < |items| :: items[i].key != items[j].key
    ensures forall i | 0 <= i < |items| :: items[i].key in ToMap(items) && ToMap(items)[items[i].key] == items[i].value
    ensures forall k | k in ToMap(items) :: exists i :: 0 <= i < |items| && items[i].key == k
  {
    if items != [] {
      var n := |items| - 1;
      DistinctItemsAreAllKept(items[..n]);
      forall i | 0 <= i < n ensures items[i].key in ToMap(items[..n]) && ToMap(items[..n])[items[i].key] == items[i].value {
        assert items[..n][i] == items[i];
      }
      forall k | k in ToMap(items) ensures exists i :: 0 <= i < |items| && items[i].key == k {
        if k != items[n].key {
          var i :| 0 <= i < n && items[..n][i].key == k;
          assert items[i].key == k;
        }
      }
    }
  }

  // ---------- The signed string ----------

  const REQUEST_TARGET := "(request-target)"

  // The path is the decoded one; an absent header reads as the empty string.
  datatype Request = Request(verb: string, path: string, header: string -> string)

  datatype Line = Line(name: string, value: string)

  function HeaderValue(req: Request, name: string): string {
    if name == REQUEST_TARGET then ToLower(req.verb) + " " + req.path else req.header(name)
  }

  function SigningLines(req: Request, names: seq<string>): seq<Line> {
    seq(|names|, i requires 0 <= i < |names| => Line(ToLower(names[i]), HeaderValue(req, names[i])))
  }

  function LineText(l: Line): string {
    l.name + ": " + l.value
  }

  function SigningText(lines: seq<Line>): string {
    if lines == [] then "" else LineText(lines[0]) + Tail(lines[1..])
  }

  function Tail(lines: seq<Line>): string {
    if lines == [] then "" else "\n" + LineText(lines[0]) + Tail(lines[1..])
  }

  lemma {:induction false} TailGrows(lines: seq<Line>, l: Line)
    ensures Tail(lines + [l]) == Tail(lines) + "\n" + LineText(l)
  {
    if lines == [] {
      assert lines + [l] == [l] && Tail([l][1..]) == "";
    } else {
      assert (lines + [l])[1..] == lines[1..] + [l];
      TailGrows(lines[1..], l);
    }
  }

  lemma SigningTextGrows(lines: seq<Line>, l: Line)
    ensures SigningText(lines + [l]) == SigningText(lines) + (if lines == [] then "" else "\n") + LineText(l)
  {
    if lines == [] {
      assert lines + [l] == [l] && Tail([l][1..]) == "";
    } else {
      assert (lines + [l])[1..] == lines[1..] + [l];
      TailGrows(lines[1..], l);
    }
  }

  method BuildSigningString(req: Request, headers: string) returns (text: string)
    ensures text == SigningText(SigningLines(req, Fields(headers)))
  {
    text := "";
    var names := Fields(headers);
    ghost var lines := SigningLines(req, names);
    assert SigningText(lines[..0]) == "";
    hide Fields, SigningText;
    for i := 0 to |names|
      invariant text == SigningText(lines[..i])
    {
      SigningTextGrows(lines[..i], lines[i]);
      assert lines[..i + 1] == lines[..i] + [lines[i]];
      if i > 0 {
        text := text + "\n";
      }
      var value;
      if names[i] == REQUEST_TARGET {
        value := ToLower(req.verb) + " " + req.path;
      } else {
        value := req.header(names[i]);
      }
      ghost var before := text;
      text := text + ToLower(names[i]);
      text := text + ": ";
      text := text + value;
      assert text == before + LineText(lines[i]);
    }
    assert lines[..|names|] == lines;
  }

  // ---------- What the signed string determines ----------

  predicate IsName(name: string) {
    name != "" && NoSpace(name) && ToLower(name) == name
  }

  predicate WellNamed(lines: seq<Line>) {
    forall i | 0 <= i < |lines| :: IsName(lines[i].name)
  }

  // From position `i` on, the value reads as a new line with a name of length `k`.
  predicate EmbedsAt(value: string, i: nat, k: nat) {
    && i + k + 3 <= |value|
    && value[i] == '\n' && IsName(value[i + 1..i + 1 + k])
    && value[i + 1 + k] == ':' && value[i + 2 + k] == ' '
  }

  ghost predicate Embeds(value: string) {
    exists i: nat, k: nat :: EmbedsAt(value, i, k)
  }

  ghost predicate EmbedsNothing(lines: seq<Line>) {
    forall i | 0 <= i < |lines| :: !Embeds(lines[i].value)
  }

  lemma NoNewlineEmbedsNothing(lines: seq<Line>)
    requires forall i | 0 <= i < |lines| :: '\n' !in lines[i].value
    ensures EmbedsNothing(lines)
  {
  }

  lemma LinesAreWellNamed(req: Request, headers: string)
    ensures WellNamed(SigningLines(req, Fields(headers)))
  {
  }

  // The name ends at the first space, one character before it.
  lemma FirstNameIs(l: Line, rest: string)
    requires NoSpace(l.name)
    ensures IndexOf(LineText(l) + rest, ' ') == |l.name| + 1
  {
    var s := LineText(l) + rest;
    assert s[|l.name| + 1] == ' ';
    assert s[..|l.name| + 1] == l.name + ":";
    assert ' ' !in l.name;
    IndexOfIs(s, ' ', |l.name| + 1);
  }

  lemma FirstLinesAgree(l: Line, rest: string, l': Line, rest': string)
    requires NoSpace(l.name) && NoSpace(l'.name)
    requires LineText(l) + rest == LineText(l') + rest'
    ensures l.name == l'.name && l.value + rest == l'.value + rest'
  {
    FirstNameIs(l, rest);
    FirstNameIs(l', rest');
    var s, n := LineText(l) + rest, |l.name|;
    assert s[..n] == l.name && s[..n] == l'.name;
    assert s[n + 2..] == l.value + rest && s[n + 2..] == l'.value + rest';
  }

  lemma WordHasNoBreak(word: string)
    requires NoSpace(word)
    ensures '\n' !in word
  {
  }

  // After the value comes a line break, the next name, a colon and a space, with no other line
  // break among them.
  lemma TailStartsALine(v: string, lines: seq<Line>)
    requires WellNamed(lines) && lines != []
    ensures var s, i, k := v + Tail(lines), |v|, |lines[0].name|;
            && |s| >= i + k + 3 && s[i] == '\n' && s[i + 1..i + 1 + k] == lines[0].name && IsName(lines[0].name)
            && s[i + 1 + k] == ':' && s[i + 2 + k] == ' '
            && forall x | i < x < i + k + 3 :: s[x] != '\n'
  {
    var name, rest := lines[0].name, lines[0].value + Tail(lines[1..]);
    WordHasNoBreak(name);
    hide IsSpace, NoSpace, IsName;
    TailSplits(lines);
    hide Tail;
    assert v + (("\n" + name + ": ") + rest) == v + ("\n" + name + ": ") + rest;
    HeadAt(v, name, rest);
  }

  lemma TailSplits(lines: seq<Line>)
    requires lines != []
    ensures Tail(lines) == ("\n" + lines[0].name + ": ") + (lines[0].value + Tail(lines[1..]))
  {
    var n, v, t := lines[0].name, lines[0].value, Tail(lines[1..]);
    assert "\n" + (n + ": " + v) + t == ("\n" + n + ": ") + (v + t);
  }

  lemma HeadAt(v: string, name: string, rest: string)
    requires '\n' !in name
    ensures var s, i, k := v + ("\n" + name + ": ") + rest, |v|, |name|;
            && |s| >= i + k + 3 && s[i] == '\n' && s[i + 1..i + 1 + k] == name
            && s[i + 1 + k] == ':' && s[i + 2 + k] == ' '
            && forall x | i < x < i + k + 3 :: s[x] != '\n'
  {
    var head := "\n" + name + ": ";
    var s := v + head + rest;
    assert head[1..1 + |name|] == name;
    assert s[|v|..|v| + |head|] == head;
    assert forall x | 0 < x < |head| :: head[x] != '\n';
    assert forall x | |v| <= x < |v| + |head| :: s[x] == head[x - |v|];
    assert s[|v| + 1..|v| + 1 + |name|] == head[1..1 + |name|];
  }

  lemma TailStart(lines: seq<Line>)
    ensures Tail(lines) == "" || Tail(lines)[0] == '\n'
  {
  }

  // Of two values that continue to the same text, the longer one swallows a whole line start.
  lemma LongerValueEmbeds(v: string, lines: seq<Line>, v': string, lines': seq<Line>)
    requires WellNamed(lines) && v + Tail(lines) == v' + Tail(lines') && |v| < |v'|
    ensures Embeds(v')
  {
    var s, i := v + Tail(lines), |v|;
    assert lines != [];
    var name := lines[0].name;
    var k := |name|;
    TailStartsALine(v, lines);
    hide IsName, Tail;
    assert s[|v'|..] == Tail(lines');
    TailStart(lines');
    assert |v'| >= i + k + 3;
    assert forall x | 0 <= x < |v'| :: v'[x] == s[x];
    assert v'[i + 1..i + 1 + k] == s[i + 1..i + 1 + k];
    assert EmbedsAt(v', i, k);
  }

  // The signed string determines the list of lower-cased names and values, as long as no value
  // holds what reads as a further line.
  lemma {:induction false} SigningTextDetermines(lines: seq<Line>, lines': seq<Line>)
    requires WellNamed(lines) && WellNamed(lines') && EmbedsNothing(lines) && EmbedsNothing(lines')
    requires SigningText(lines) == SigningText(lines')
    ensures lines == lines'
  {
    if lines == [] || lines' == [] {
      assert lines == lines';
    } else {
      var l, rest, l', rest' := lines[0], lines[1..], lines'[0], lines'[1..];
      FirstLinesAgree(l, Tail(rest), l', Tail(rest'));
      if |l.value| < |l'.value| {
        LongerValueEmbeds(l.value, rest, l'.value, rest');
      } else if |l'.value| < |l.value| {
        LongerValueEmbeds(l'.value, rest', l.value, rest);
      }
      var n := |l.value|;
      assert (l.value + Tail(rest))[..n] == l.value && (l'.value + Tail(rest'))[..n] == l'.value;
      assert (l.value + Tail(rest))[n..] == Tail(rest) && (l'.value + Tail(rest'))[n..] == Tail(rest');
      TailDetermines(rest, rest');
      SigningTextDetermines(rest, rest');
      assert lines == [l] + rest && lines' == [l'] + rest';
    }
  }

  lemma TailIs(lines: seq<Line>)
    requires lines != []
    ensures Tail(lines) == "\n" + SigningText(lines)
  {
  }

  lemma TailDetermines(lines: seq<Line>, lines': seq<Line>)
    requires Tail(lines) == Tail(lines')
    ensures SigningText(lines) == SigningText(lines')
  {
    if lines != [] && lines' != [] {
      TailIs(lines);
      TailIs(lines');
      assert Tail(lines)[1..] == SigningText(lines);
      assert Tail(lines')[1..] == SigningText(lines');
    }
  }

  lemma SigningStringDetermines(req: Request, headers: string, req': Request, headers': string)
    requires EmbedsNothing(SigningLines(req, Fields(headers))) && EmbedsNothing(SigningLines(req', Fields(headers')))
    requires SigningText(SigningLines(req, Fields(headers))) == SigningText(SigningLines(req', Fields(headers')))
    ensures SigningLines(req, Fields(headers)) == SigningLines(req', Fields(headers'))
  {
    LinesAreWellNamed(req, headers);
    LinesAreWellNamed(req', headers');
    SigningTextDetermines(SigningLines(req, Fields(headers)), SigningLines(req', Fields(headers')));
  }

  // Line `j` read as two lines.
  function Reread(lines: seq<Line>, j: nat, i: nat, k: nat): seq<Line>
    requires j < |lines| && EmbedsAt(lines[j].value, i, k)
  {
    var v := lines[j].value;
    lines[..j] + [Line(lines[j].name, v[..i]), Line(v[i + 1..i + 1 + k], v[i + 3 + k..])] + lines[j + 1..]
  }

  // That condition is sharp: every list with a value that embeds a line shares its signed string
  // with a longer list.
  lemma EmbeddedLineIsAmbiguous(lines: seq<Line>, j: nat, i: nat, k: nat)
    requires WellNamed(lines) && j < |lines| && EmbedsAt(lines[j].value, i, k)
    ensures var other := Reread(lines, j, i, k);
            WellNamed(other) && |other| == |lines| + 1 && SigningText(other) == SigningText(lines)
  {
    RereadNames(lines, j, i, k);
    RereadTail(lines, j, i, k);
    TailDetermines(Reread(lines, j, i, k), lines);
  }

  lemma RereadNames(lines: seq<Line>, j: nat, i: nat, k: nat)
    requires WellNamed(lines) && j < |lines| && EmbedsAt(lines[j].value, i, k)
    ensures WellNamed(Reread(lines, j, i, k))
  {
  }

  lemma ValueSplits(v: string, i: nat, k: nat)
    requires EmbedsAt(v, i, k)
    ensures v == v[..i] + "\n" + v[i + 1..i + 1 + k] + ": " + v[i + 3 + k..]
  {
  }

  lemma TwoLinesInOne(n: string, v: string, n': string, v': string, rest: seq<Line>)
    ensures Tail([Line(n, v + "\n" + n' + ": " + v')] + rest) == Tail([Line(n, v), Line(n', v')] + rest)
  {
  }

  lemma {:induction false} RereadTail(lines: seq<Line>, j: nat, i: nat, k: nat)
    requires j < |lines| && EmbedsAt(lines[j].value, i, k)
    ensures Tail(Reread(lines, j, i, k)) == Tail(lines)
  {
    var other := Reread(lines, j, i, k);
    if j == 0 {
      var n, v := lines[0].name, lines[0].value;
      ValueSplits(v, i, k);
      TwoLinesInOne(n, v[..i], v[i + 1..i + 1 + k], v[i + 3 + k..], lines[1..]);
      assert lines == [Line(n, v)] + lines[1..];
    } else {
      assert lines[1..][j - 1] == lines[j];
      assert other[1..] == Reread(lines[1..], j - 1, i, k);
      RereadTail(lines[1..], j - 1, i, k);
    }
  }

  // It matters in practice: the decoded path may hold a line break, so a request target alone can
  // spell a request target followed by a host line.
  lemma RequestTargetMaySpellTheHost(verb: string, path: string, header: string -> string)
    ensures var names, alone := REQUEST_TARGET + " " + "host", REQUEST_TARGET;
            var longer := Request(verb, path + "\nhost: " + header("host"), header);
            && SigningText(SigningLines(Request(verb, path, header), Fields(names)))
            == SigningText(SigningLines(longer, Fields(alone)))
            && SigningLines(Request(verb, path, header), Fields(names)) != SigningLines(longer, Fields(alone))
  {
    TwoNames();
    hide Fields, IsSpace, HeaderValue;
    var req, longer := Request(verb, path, header), Request(verb, path + "\nhost: " + header("host"), header);
    var target, h, v := ToLower(REQUEST_TARGET), header("host"), ToLower(verb) + " " + path;
    var two, one := SigningLines(req, [REQUEST_TARGET, "host"]), SigningLines(longer, [REQUEST_TARGET]);
    TargetAndHost(req);
    TargetAndHost(longer);
    assert v + "\n" + "host" + ": " + h == ToLower(verb) + " " + (path + "\nhost: " + h);
    assert two == [Line(target, v), Line("host", h)] + [];
    assert one == [Line(target, v + "\n" + "host" + ": " + h)] + [];
    TwoLinesInOne(target, v, "host", h, []);
    TailDetermines(one, two);
    assert |one| != |two|;
  }

  lemma TargetAndHost(req: Request)
    ensures HeaderValue(req, REQUEST_TARGET) == ToLower(req.verb) + " " + req.path
    ensures HeaderValue(req, "host") == req.header("host")
    ensures ToLower("host") == "host"
  {
  }

  lemma VisibleIsAWord(s: string)
    requires forall i | 0 <= i < |s| :: '!' <= s[i] <= '~'
    ensures NoSpace(s)
  {
  }

  lemma OneAndTwoWords(a: string, b: string)
    requires a != "" && b != "" && NoSpace(a) && NoSpace(b)
    ensures Fields(a) == [a] && Fields(a + " " + b) == [a, b]
  {
    hide Fields, NoSpace;
    FieldsOfWords([a]);
    FieldsOfWords([a, b]);
    assert [a, b][1..] == [b];
    assert Join([a, b], ' ') == a + " " + b;
  }

  lemma TwoNames()
    ensures Fields(REQUEST_TARGET + " " + "host") == [REQUEST_TARGET, "host"]
    ensures Fields(REQUEST_TARGET) == [REQUEST_TARGET]
  {
    VisibleIsAWord(REQUEST_TARGET);
    VisibleIsAWord("host");
    hide Fields, NoSpace;
    OneAndTwoWords(REQUEST_TARGET, "host");
  }

  // ---------- Line by line, part by part ----------

  // A part without an equals sign sets nothing. Any other sets what stands before its first equals
  // sign, white space around the part aside, to what stands after it without surrounding quotes.
  lemma ParsePartMeans(part: string)
    ensures ParsePart(part) == None <==> '=' !in TrimSpace(part)
    ensures ParsePart(part).Some? ==>
              var (key, value) := ParsePart(part).value;
              '=' !in key && exists quotes, quotes' ::
                AllDropped(quotes, IsQuote) && AllDropped(quotes', IsQuote)
                && TrimSpace(part) == key + "=" + (quotes + value + quotes')
                && (value != "" ==> value[0] != '"' && value[|value| - 1] != '"')
  {
    hide TrimSpace, Trim;
    var s := TrimSpace(part);
    var i := IndexOf(s, '=');
    if i < |s| {
      var rest := s[i + 1..];
      var quotes, quotes' := TrimMeans(rest, IsQuote);
      assert rest == quotes + TrimQuotes(rest) + quotes';
      assert s == s[..i] + "=" + rest;
      assert AllDropped(quotes, IsQuote);
    }
  }

  function LineTexts(lines: seq<Line>): seq<string> {
    seq(|lines|, i requires 0 <= i < |lines| => LineText(lines[i]))
  }

  lemma {:induction false} SigningTextIsJoined(lines: seq<Line>)
    ensures SigningText(lines) == Join(LineTexts(lines), '\n')
  {
    if |lines| > 1 {
      SigningTextIsJoined(lines[1..]);
      TailIs(lines[1..]);
      assert LineTexts(lines)[1..] == LineTexts(lines[1..]);
      assert LineText(lines[0]) + ['\n'] + SigningText(lines[1..]) == LineText(lines[0]) + ("\n" + SigningText(lines[1..]));
    } else if |lines| == 1 {
      assert lines[1..] == [];
    }
  }

  // Split at its line breaks, the signed string gives one line for each name listed, in order: the
  // name in lower case, a colon, a space and the value, that of the request target being the method
  // in lower case, a space and the path.
  lemma SigningLinesAre(req: Request, names: seq<string>, i: nat)
    requires i < |names| && forall j | 0 <= j < |names| :: NoSpace(names[j]) && '\n' !in HeaderValue(req, names[j])
    ensures var lines := Split(SigningText(SigningLines(req, names)), '\n');
            && |lines| == |names|
            && lines[i] == ToLower(names[i]) + ": "
                 + (if names[i] == "(request-target)" then ToLower(req.verb) + " " + req.path else req.header(names[i]))
  {
    var lines := SigningLines(req, names);
    SigningTextIsJoined(lines);
    forall j | 0 <= j < |names| ensures '\n' !in LineTexts(lines)[j] {
      LoweredHasNoBreak(names[j]);
      hide ToLower, HeaderValue, NoSpace;
      assert LineTexts(lines)[j] == ToLower(names[j]) + ": " + HeaderValue(req, names[j]);
    }
    hide ToLower, HeaderValue, NoSpace;
    SplitJoin(LineTexts(lines), '\n');
    ValueIs(req, names[i]);
  }

  lemma ValueIs(req: Request, name: string)
    ensures HeaderValue(req, name)
         == if name == "(request-target)" then ToLower(req.verb) + " " + req.path else req.header(name)
  {
  }

  lemma LoweredHasNoBreak(word: string)
    requires NoSpace(word)
    ensures '\n' !in ToLower(word)
  {
    WordHasNoBreak(word);
  }
}
