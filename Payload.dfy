/** The generated Lua code: the localization entries and the mod-script code
    that the modifier inserts between the sentinels, and the search for the
    variable that holds the mod object (LuaModifier.cs, GenerateModScriptLua,
    GetModVariableName, the two localization dictionaries and
    GenerateLocalizationScriptLua). */
module Payload {
  import opened Base
  import opened Text
  import opened Markers

  /** One entry of a localization dictionary: a language code and its text. */
  datatype Entry = Entry(key: String, value: String)

  /** The fixed texts the modifier generates code from: the mod-script template
      and the two localization dictionaries in their enumeration order. The
      operations take them as a value, so that reasoning about them never has to
      look into the long literals below. */
  datatype Texts = Texts(template: String, fail: seq<Entry>, outOfDate: seq<Entry>)

  /** The texts of `MUC_fail`, in the order the dictionary enumerates them. */
  const FailLocalizations: seq<Entry> := [
    Entry("en", "Could not verify that you have the latest version of %s. Is it public on Steam?"),
    Entry("es", "No se pudo verificar que tienes la última versión de %s. ¿Es público en Steam?"),
    Entry("fr", "Impossible de vérifier que vous disposez de la dernière version de %s. C'est public sur Steam ?"),
    Entry("de", "Es konnte nicht überprüft werden, ob Sie über die neueste Version von %s verfügen. Ist es auf Steam öffentlich?"),
    Entry("zh", "无法验证您是否拥有最新版本的 %s。 steam上是公开的吗？")
  ]

  /** The texts of `MUC_out_of_date`, in the order the dictionary enumerates them. */
  const OutOfDateLocalizations: seq<Entry> := [
    Entry("en", "NOTICE: You are not using the latest version of %s."),
    Entry("es", "AVISO: No estás usando la última versión de %s"),
    Entry("fr", "AVIS : Vous n'utilisez pas la dernière version de %s"),
    Entry("de", "HINWEIS: Sie verwenden nicht die neueste Version von %s"),
    Entry("zh", "注意：您没有使用最新版本的 %s")
  ]

  /** The code that becomes the mod script's update check; `%UPLOAD_DATE_TIME%`,
      `%MOD_ID%` and `%MOD_VAR_NAME%` are placeholders. */
  const ModTemplate: String := "local mod_update_check_callback = function(success, code, headers, data, userdata)\n    mod:pcall(function()\n\t    if not data then %MOD_VAR_NAME%:echo(%MOD_VAR_NAME%:localize(\"MUC_fail\", %MOD_VAR_NAME%:get_readable_name())) return end\n\t    local first_update_index = data:find(\"Update: \")\n\t    if not first_update_index then %MOD_VAR_NAME%:echo(%MOD_VAR_NAME%:localize(\"MUC_fail\", %MOD_VAR_NAME%:get_readable_name())) return end\n\t    local ours = { %UPLOAD_DATE_TIME% }\n\t    local year_p, no_year_p = \"(%d+)%. (%a+)%.? (%d+) um (%d+):(%d+)\", \"(%d+)%. (%a+)%.? um (%d+):(%d+)\"\n\t    local month_lut = {Jan=1,[\"Jän\"]=1,Feb=2,[\"März\"]=3,Apr=4,Mai=5,Jun=6,Juni=6,Jul=7,Juli=7,Aug=8,Sep=9,Sept=9,Okt=10,Nov=11,Dez=12}\n\t    local substr = data:sub(first_update_index, first_update_index+30)\n\t    local day, month, year, hour, minute = substr:match(year_p)\n\t    if not day then year, day, month, hour, minute = os.date(\"%Y\"), substr:match(no_year_p) end\n\t    local latest = { tonumber(year),month_lut[month],tonumber(day),tonumber(hour),tonumber(minute) }\n\t    local MUC_get_up_to_date = function(table_ours, table_latest)\n\t\t    for i = 1, 5 do if table_ours[i] > table_latest[i] then return true elseif table_ours[i] < table_latest[i] then return false end end\n\t\t    return true\n\t    end\n\t    %MOD_VAR_NAME%.up_to_date = MUC_get_up_to_date(ours, latest)\n\t    if not %MOD_VAR_NAME%.up_to_date then\n\t\t    %MOD_VAR_NAME%:echo(%MOD_VAR_NAME%:localize(\"MUC_out_of_date\", %MOD_VAR_NAME%:get_readable_name()))\n\t    end\n    end)\nend\nManagers.curl:get(\"https://steamcommunity.com/sharedfiles/filedetails/changelog/%MOD_ID%\", {\"Accept-Language: de;q=0.5\"}, mod_update_check_callback)"

  /** The texts of the modifier itself. */
  const SourceTexts: Texts := Texts(ModTemplate, FailLocalizations, OutOfDateLocalizations)

  /** A line as a writer puts it out: its text and a terminator. */
  function Line(text: String): String {
    text + "\n"
  }

  /** The line written for one entry, without its terminator. */
  function EntryText(e: Entry): String {
    "\t\t" + e.key + " = \"" + e.value + "\","
  }

  /** What the `foreach` over a dictionary appends: one line per entry. */
  function EntryLines(es: seq<Entry>): String {
    if es == [] then "" else Line(EntryText(es[0])) + EntryLines(es[1..])
  }

  function EntryTexts(es: seq<Entry>): (r: seq<String>)
    ensures |r| == |es| && forall i :: 0 <= i < |es| ==> r[i] == EntryText(es[i])
  {
    if es == [] then [] else [EntryText(es[0])] + EntryTexts(es[1..])
  }

  /** GenerateLocalizationScriptLua: the entries to add to the returned localization table. */
  function LocalizationPayload(texts: Texts, prependWithComma: bool, prependWithNewline: bool): String {
    var newLine := if prependWithNewline then "\n" else "";
    var comma := if prependWithComma then "," else "";
    var output := newLine + Line("\t" + HeaderBegin);
    var output := output + Line("\t" + comma + "MUC_fail = {");
    var output := output + EntryLines(texts.fail);
    var output := output + Line("\t},") + Line("\tMUC_out_of_date = {");
    var output := output + EntryLines(texts.outOfDate);
    output + Line("\t},") + Line("\t" + HeaderEnd)
  }

  /** The comma is one character of the payload. */
  lemma {:induction false} CommaLengthens(texts: Texts, prependWithNewline: bool)
    ensures |LocalizationPayload(texts, true, prependWithNewline)| == |LocalizationPayload(texts, false, prependWithNewline)| + 1
  {
  }

  /** The lines of the two tables after the `MUC_fail` line. */
  function Tables(texts: Texts): seq<String> {
    EntryTexts(texts.fail) + ["\t},", "\tMUC_out_of_date = {"] + EntryTexts(texts.outOfDate) + ["\t},"]
  }

  /** The lines between the two sentinel lines of the localization payload. */
  function LocalizationBody(texts: Texts, prependWithComma: bool): seq<String> {
    var comma := if prependWithComma then "," else "";
    ["\t" + comma + "MUC_fail = {"] + Tables(texts)
  }

  /** The lines of the localization payload, after its optional leading line terminator. */
  function LocalizationLines(texts: Texts, prependWithComma: bool): seq<String> {
    ["\t" + HeaderBegin] + LocalizationBody(texts, prependWithComma) + ["\t" + HeaderEnd]
  }

  lemma {:induction false} EntryLinesAreJoined(es: seq<Entry>)
    ensures EntryLines(es) == JoinLines(EntryTexts(es))
    decreases |es|
  {
    if es != [] {
      EntryLinesAreJoined(es[1..]);
    }
  }

  /** The payload is an optional line terminator followed by its lines, each
      with its terminator. */
  lemma {:induction false} LocalizationPayloadIsLines(texts: Texts, prependWithComma: bool, prependWithNewline: bool)
    ensures LocalizationPayload(texts, prependWithComma, prependWithNewline)
      == (if prependWithNewline then "\n" else "") + JoinLines(LocalizationLines(texts, prependWithComma))
  {
    var nl := if prependWithNewline then "\n" else "";
    var comma := if prependWithComma then "," else "";
    var l0, l1, l2, l3, l4, l5 := "\t" + HeaderBegin, "\t" + comma + "MUC_fail = {", "\t},", "\tMUC_out_of_date = {", "\t},", "\t" + HeaderEnd;
    var f, o := EntryTexts(texts.fail), EntryTexts(texts.outOfDate);
    EntryLinesAreJoined(texts.fail);
    EntryLinesAreJoined(texts.outOfDate);
    assert LocalizationPayload(texts, prependWithComma, prependWithNewline)
      == nl + Line(l0) + Line(l1) + JoinLines(f) + Line(l2) + Line(l3) + JoinLines(o) + Line(l4) + Line(l5);
    var body := LocalizationBody(texts, prependWithComma);
    BodyJoin(l1, f, l2, l3, o, l4);
    FrameJoin(l0, body, l5);
    Regroup(nl, Line(l0), Line(l1), JoinLines(f), Line(l2), Line(l3), JoinLines(o), Line(l4), Line(l5));
  }

  lemma {:induction false} BodyJoin(l1: String, f: seq<String>, l2: String, l3: String, o: seq<String>, l4: String)
    ensures JoinLines([l1] + (f + [l2, l3] + o + [l4]))
      == Line(l1) + JoinLines(f) + (Line(l2) + Line(l3)) + JoinLines(o) + Line(l4)
  {
    Associative([l1], f + [l2, l3] + o, [l4]);
    Associative([l1], f + [l2, l3], o);
    Associative([l1], f, [l2, l3]);
    JoinLinesAppend([l1] + f + [l2, l3] + o, [l4]);
    JoinLinesAppend([l1] + f + [l2, l3], o);
    JoinLinesAppend([l1] + f, [l2, l3]);
    JoinLinesAppend([l1], f);
    JoinOne(l1);
    JoinOne(l4);
    JoinTwo(l2, l3);
  }

  lemma {:induction false} FrameJoin(l0: String, body: seq<String>, l5: String)
    ensures JoinLines([l0] + body + [l5]) == Line(l0) + JoinLines(body) + Line(l5)
  {
    JoinLinesAppend([l0] + body, [l5]);
    JoinLinesAppend([l0], body);
    JoinOne(l0);
    JoinOne(l5);
  }

  lemma {:induction false} Regroup(n: String, x0: String, x1: String, x2: String, x3: String, x4: String, x5: String, x6: String, x7: String)
    ensures n + (x0 + (x1 + x2 + (x3 + x4) + x5 + x6) + x7) == n + x0 + x1 + x2 + x3 + x4 + x5 + x6 + x7
  {
  }

  lemma {:induction false} JoinOne(x: String)
    ensures JoinLines([x]) == Line(x)
  {
    assert [x][1..] == [];
  }

  lemma {:induction false} JoinTwo(x: String, y: String)
    ensures JoinLines([x, y]) == Line(x) + Line(y)
  {
    assert [x, y][1..] == [y];
    JoinOne(y);
  }

  /** The lines of the localization payload: the BEGIN line, the `MUC_fail` line
      that alone carries the optional comma, the entries, the lines that close
      and open the two tables, and the END line. */
  lemma {:induction false} LocalizationLinesShape(texts: Texts, prependWithComma: bool)
    ensures var ls := LocalizationLines(texts, prependWithComma);
      && |ls| == |texts.fail| + |texts.outOfDate| + 6
      && ls[0] == "\t" + HeaderBegin
      && ls[1] == "\t" + (if prependWithComma then "," else "") + "MUC_fail = {"
      && ls[|ls| - 1] == "\t" + HeaderEnd
      && forall i :: 0 <= i < |ls| && i != 1 ==> ls[i] == LocalizationLines(texts, !prependWithComma)[i]
  {
    var t := Tables(texts);
    var x, y := LocalizationLines(texts, prependWithComma), LocalizationLines(texts, !prependWithComma);
    var lx, ly := "\t" + (if prependWithComma then "," else "") + "MUC_fail = {", "\t" + (if !prependWithComma then "," else "") + "MUC_fail = {";
    FramedLines("\t" + HeaderBegin, lx, ly, t, "\t" + HeaderEnd);
  }

  /** Two framed runs of lines that differ only in their second line. */
  lemma {:induction false} FramedLines(first: String, lx: String, ly: String, t: seq<String>, last: String)
    ensures var x, y := [first] + ([lx] + t) + [last], [first] + ([ly] + t) + [last];
      && |x| == |y| == |t| + 3 && x[0] == first && x[1] == lx && x[|x| - 1] == last
      && forall i :: 0 <= i < |x| && i != 1 ==> x[i] == y[i]
  {
    var x, y := [first] + ([lx] + t) + [last], [first] + ([ly] + t) + [last];
    forall i | 0 <= i < |x| && i != 1
      ensures x[i] == y[i]
    {
      if 1 < i < |x| - 1 {
        assert x[i] == t[i - 2] == y[i];
      }
    }
  }

  /** No key or text of an entry holds a line terminator or a capital G. The
      dictionaries of the modifier are of this kind; the proofs take it as a
      hypothesis rather than evaluate the long literals. */
  predicate PlainEntries(es: seq<Entry>) {
    forall i :: 0 <= i < |es| ==> '\n' !in es[i].key + es[i].value && 'G' !in es[i].key + es[i].value
  }

  /** Texts whose generated lines are ordinary lines: see PlainEntries; the
      template holds no capital G. */
  predicate PlainTexts(texts: Texts) {
    PlainEntries(texts.fail) && PlainEntries(texts.outOfDate) && 'G' !in texts.template
  }
  lemma {:induction false} EntryTextsAreLines(es: seq<Entry>, c: char)
    requires forall i :: 0 <= i < |es| ==> c !in es[i].key + es[i].value
    requires c != '\t' && c != ' ' && c != '=' && c != '"' && c != ','
    ensures LinesLack(EntryTexts(es), c)
  {
    forall i | 0 <= i < |es|
      ensures c !in EntryTexts(es)[i]
    {
      var e := es[i];
      assert c !in e.key && c !in e.value by {
        assert e.key + e.value == es[i].key + es[i].value;
      }
    }
  }

  /** The lines a reader gets back from the payload: an empty one for the
      leading terminator, if any, then the payload's lines, and no text after
      the final terminator. */
  lemma {:induction false} LocalizationPayloadSplit(texts: Texts, prependWithComma: bool, prependWithNewline: bool)
    requires PlainTexts(texts)
    ensures Split(LocalizationPayload(texts, prependWithComma, prependWithNewline))
      == (if prependWithNewline then [""] else []) + LocalizationLines(texts, prependWithComma) + [""]
  {
    LocalizationPayloadIsLines(texts, prependWithComma, prependWithNewline);
    LocalizationLinesAreLines(texts, prependWithComma);
    SplitOfOptionalNewline(prependWithNewline, LocalizationLines(texts, prependWithComma));
  }

  lemma {:induction false} SplitOfOptionalNewline(newline: bool, ls: seq<String>)
    requires LinesLack(ls, '\n')
    ensures Split((if newline then "\n" else "") + JoinLines(ls)) == (if newline then [""] else []) + ls + [""]
  {
    if newline {
      SplitOfLeadingNewline(ls);
    } else {
      SplitOfJoin(ls);
      assert "" + JoinLines(ls) == JoinLines(ls);
      assert [] + ls == ls;
    }
  }

  lemma {:induction false} SplitOfLeadingNewline(ls: seq<String>)
    requires LinesLack(ls, '\n')
    ensures Split("\n" + JoinLines(ls)) == [""] + ls + [""]
  {
    var all := [""] + ls;
    forall i | 0 <= i < |all|
      ensures NoNewline(all[i])
    {
      if i > 0 {
        assert all[i] == ls[i - 1];
      }
    }
    SplitOfJoin(all);
    assert all[0] == "" && all[1..] == ls;
    assert JoinLines(all) == "" + "\n" + JoinLines(ls);
    assert "" + "\n" + JoinLines(ls) == "\n" + JoinLines(ls);
  }

  /** No line of the localization payload holds a line terminator. */
  lemma {:induction false} LocalizationLinesAreLines(texts: Texts, prependWithComma: bool)
    requires PlainTexts(texts)
    ensures LinesLack(LocalizationLines(texts, prependWithComma), '\n')
  {
    var body := LocalizationBody(texts, prependWithComma);
    LocalizationBodyLacks(texts, prependWithComma, '\n');
    SentinelsAreSingleLines();
    assert LinesLack(["\t" + HeaderBegin], '\n');
    assert LinesLack(["\t" + HeaderEnd], '\n');
    LinesLackAppend(["\t" + HeaderBegin], body, '\n');
    LinesLackAppend(["\t" + HeaderBegin] + body, ["\t" + HeaderEnd], '\n');
  }

  /** The lines between the sentinel lines hold neither a line terminator nor a capital G. */
  lemma {:induction false} LocalizationBodyLacks(texts: Texts, prependWithComma: bool, c: char)
    requires PlainTexts(texts) && (c == '\n' || c == 'G')
    ensures LinesLack(LocalizationBody(texts, prependWithComma), c)
  {
    FixedTextsLack();
    TablesAreLines(texts, c);
    var first := "\t" + (if prependWithComma then "," else "") + "MUC_fail = {";
    assert LinesLack([first], c);
    LinesLackAppend([first], Tables(texts), c);
  }

  /** The fixed pieces of the localization payload hold neither a line terminator nor a capital G. */
  lemma FixedTextsLack()
    ensures forall c | c == '\n' || c == 'G' ::
      c !in "\t}," && c !in "\tMUC_out_of_date = {" && c !in "MUC_fail = {" && c !in "\t" && c !in ","
  {
  }

  lemma {:induction false} TablesAreLines(texts: Texts, c: char)
    requires PlainTexts(texts) && (c == '\n' || c == 'G')
    ensures LinesLack(Tables(texts), c)
  {
    FixedTextsLack();
    var f, o := EntryTexts(texts.fail), EntryTexts(texts.outOfDate);
    EntryTextsAreLines(texts.fail, c);
    EntryTextsAreLines(texts.outOfDate, c);
    assert LinesLack(["\t},", "\tMUC_out_of_date = {"], c);
    assert LinesLack(["\t},"], c);
    LinesLackAppend(f, ["\t},", "\tMUC_out_of_date = {"], c);
    LinesLackAppend(f + ["\t},", "\tMUC_out_of_date = {"], o, c);
    LinesLackAppend(f + ["\t},", "\tMUC_out_of_date = {"] + o, ["\t},"], c);
  }

  /** The lines of the localization payload open a block on their first line,
      close it on their last, and hold no sentinel in between. */
  lemma {:induction false} LocalizationLinesSentinels(texts: Texts, prependWithComma: bool)
    requires PlainTexts(texts)
    ensures var ls := LocalizationLines(texts, prependWithComma);
      && ls == [ls[0]] + LocalizationBody(texts, prependWithComma) + [ls[|ls| - 1]]
      && Begins(ls[0]) && !Ends(ls[0])
      && Ends(ls[|ls| - 1]) && !Begins(ls[|ls| - 1])
      && Plain(LocalizationBody(texts, prependWithComma))
  {
    var body := LocalizationBody(texts, prependWithComma);
    LocalizationBodyLacks(texts, prependWithComma, 'G');
    SentinelLines();
    TabbedLine(HeaderBegin, HeaderBegin);
    TabbedLine(HeaderBegin, HeaderEnd);
    TabbedLine(HeaderEnd, HeaderBegin);
    TabbedLine(HeaderEnd, HeaderEnd);
    forall k | 0 <= k < |body|
      ensures !Begins(body[k]) && !Ends(body[k])
    {
      SentinelsNeedCapitalG(body[k]);
    }
  }

  /** A tab in front of a line makes no difference to which sentinels it holds. */
  lemma {:induction false} TabbedLine(line: String, w: String)
    requires w == HeaderBegin || w == HeaderEnd
    ensures Contains("\t" + line, w) <==> Contains(line, w)
  {
    var s := "\t" + line;
    assert w[0] == '-';
    if Contains(s, w) {
      var i: nat :| i + |w| <= |s| && OccursAt(s, w, i);
      OccurrenceCovers(s, w, i, i);
      OccurrenceShift(s, line, w, i - 1, 1);
    }
    if Contains(line, w) {
      var i: nat :| i + |w| <= |line| && OccursAt(line, w, i);
      OccurrenceShift(s, line, w, i, 1);
    }
  }
  /** The date and time written into the mod script, one field per number that
      the Lua code compares. */
  datatype Moment = Moment(year: nat, month: nat, day: nat, hour: nat, minute: nat)

  /** The five numbers of the upload time, separated by commas. */
  function UploadDateTime(upload: Moment): (r: String)
    ensures 'G' !in r && '\n' !in r
  {
    NatToString(upload.year) + "," + NatToString(upload.month) + "," + NatToString(upload.day)
    + "," + NatToString(upload.hour) + "," + NatToString(upload.minute)
  }

  /** The placeholders and their values, in the order the dictionary enumerates
      them; a missing variable name replaces its placeholder by nothing. */
  function Variables(modId: String, modVarName: Option<String>, upload: Moment): seq<(String, String)> {
    [("%UPLOAD_DATE_TIME%", UploadDateTime(upload)), ("%MOD_ID%", modId), ("%MOD_VAR_NAME%", OrEmpty(modVarName))]
  }

  /** The `foreach` that replaces each placeholder in turn. */
  function Substitute(code: String, vars: seq<(String, String)>): String
    requires forall i :: 0 <= i < |vars| ==> vars[i].0 != []
    decreases |vars|
  {
    if vars == [] then code else Substitute(ReplaceAll(code, vars[0].0, vars[0].1), vars[1..])
  }

  /** The template with its placeholders filled in. */
  function ModCode(texts: Texts, modId: String, modVarName: Option<String>, upload: Moment): String {
    Substitute(texts.template, Variables(modId, modVarName, upload))
  }

  /** GenerateModScriptLua: the block appended to the mod script, without a final
      line terminator. */
  function ModPayload(texts: Texts, modId: String, modVarName: Option<String>, upload: Moment): String {
    var output := HeaderBegin + "\n";
    var output := output + ModCode(texts, modId, modVarName, upload);
    output + "\n" + HeaderEnd
  }

  /** The mod payload read back as lines: the BEGIN sentinel on a line of its own,
      the lines of the code, and the END sentinel as the last line. */
  lemma {:induction false} ModPayloadSplit(texts: Texts, modId: String, modVarName: Option<String>, upload: Moment)
    ensures Split(ModPayload(texts, modId, modVarName, upload))
      == [HeaderBegin] + Split(ModCode(texts, modId, modVarName, upload)) + [HeaderEnd]
  {
    var code := ModCode(texts, modId, modVarName, upload);
    SentinelsAreSingleLines();
    SplitAtNewline(HeaderBegin, code);
    SplitAcrossNewline(HeaderBegin + "\n" + code, HeaderEnd);
  }

  /** Each character of the filled-in code comes from the code or from a value. */
  lemma {:induction false} CharsOfSubstitute(code: String, vars: seq<(String, String)>, c: char)
    requires forall i :: 0 <= i < |vars| ==> vars[i].0 != []
    requires c !in code && forall i :: 0 <= i < |vars| ==> c !in vars[i].1
    ensures c !in Substitute(code, vars)
    decreases |vars|
  {
    if vars != [] {
      CharsOfReplace(code, vars[0].0, vars[0].1, c);
      CharsOfSubstitute(ReplaceAll(code, vars[0].0, vars[0].1), vars[1..], c);
    }
  }

  /** When neither the template, the mod id nor the variable name holds a capital
      G, no line of the code holds a sentinel, so the code cannot open or close
      a block of its own. */
  lemma {:induction false} ModCodeIsPlain(texts: Texts, modId: String, modVarName: Option<String>, upload: Moment)
    requires 'G' !in texts.template && 'G' !in modId && 'G' !in OrEmpty(modVarName)
    ensures Plain(Split(ModCode(texts, modId, modVarName, upload)))
  {
    var code := ModCode(texts, modId, modVarName, upload);
    CharsOfSubstitute(texts.template, Variables(modId, modVarName, upload), 'G');
    forall k | 0 <= k < |Split(code)|
      ensures !Begins(Split(code)[k]) && !Ends(Split(code)[k])
    {
      if 'G' in Split(code)[k] {
        CharsOfPiece(code, k, 'G');
      }
      SentinelsNeedCapitalG(Split(code)[k]);
    }
  }

  /** The name captured by a match of `\s*local\s+(\w+)\s*=\s*` followed by
      `call`, whose `local` starts at `line[i]`; `call` is the text
      `get_mod("{modName}")`. Each repetition in the pattern stops at a character
      it cannot take, so the match is found without backtracking. */
  function DeclarationAt(line: String, call: String, i: nat): Option<String>
    requires i <= |line|
  {
    if OccursAt(line, "local", i) then NamedCall(line, call, i + 5) else None
  }

  /** The rest of the pattern after `local`, from `line[p]`: white space, the name,
      and the assignment of the call. */
  function NamedCall(line: String, call: String, p: nat): Option<String>
    requires p <= |line|
  {
    var a := p + LeadingWhiteSpace(line, p);
    var b := a + LeadingWord(line, a);
    if a == p || b == a || !AssignsCall(line, call, b) then None else Some(line[a..b])
  }

  /** From `line[b]` on: optional white space, `=`, optional white space and the call. */
  predicate AssignsCall(line: String, call: String, b: nat)
    requires b <= |line|
  {
    var e := b + LeadingWhiteSpace(line, b);
    e < |line| && line[e] == '=' && OccursAt(line, call, e + 1 + LeadingWhiteSpace(line, e + 1))
  }

  /** The pattern, spelled out by positions: `local` at `i`, then what
      SpelledFrom says from `i + 5`. */
  predicate DeclaresAt(line: String, call: String, i: nat, a: nat, b: nat, e: nat, g: nat) {
    OccursAt(line, "local", i) && SpelledFrom(line, call, i + 5, a, b, e, g)
  }

  /** White space from `p` up to `a`, the name in `a..b`, white space up to the
      `=` at `e`, white space up to the call at `g`. */
  predicate SpelledFrom(line: String, call: String, p: nat, a: nat, b: nat, e: nat, g: nat) {
    && p < a < b
    && AssignsAt(line, call, b, e, g)
    && (forall k :: p <= k < a ==> IsWhiteSpace(line[k]))
    && (forall k :: a <= k < b ==> IsWordChar(line[k]))
  }

  predicate AssignsAt(line: String, call: String, b: nat, e: nat, g: nat) {
    && b <= e < g
    && OccursAt(line, call, g)
    && (forall k :: b <= k < e ==> IsWhiteSpace(line[k]))
    && line[e] == '='
    && (forall k :: e < k < g ==> IsWhiteSpace(line[k]))
  }

  /** The matcher finds a name exactly when the line spells out the pattern from
      `i` with that name. */
  lemma {:induction false} DeclarationAtIff(line: String, call: String, i: nat, name: String)
    requires i <= |line| && call != [] && !IsWhiteSpace(call[0])
    ensures DeclarationAt(line, call, i) == Some(name) <==>
      exists a: nat, b: nat, e: nat, g: nat :: DeclaresAt(line, call, i, a, b, e, g) && line[a..b] == name
  {
    if OccursAt(line, "local", i) {
      NamedCallIff(line, call, i + 5, name);
      if DeclarationAt(line, call, i) == Some(name) {
        var a: nat, b: nat, e: nat, g: nat :| SpelledFrom(line, call, i + 5, a, b, e, g) && line[a..b] == name;
        assert DeclaresAt(line, call, i, a, b, e, g);
      }
    }
  }

  /** The rest of the matcher after `local` finds a name exactly when the line
      spells out the rest of the pattern with that name. */
  lemma {:induction false} NamedCallIff(line: String, call: String, p: nat, name: String)
    requires p <= |line| && call != [] && !IsWhiteSpace(call[0])
    ensures NamedCall(line, call, p) == Some(name) <==>
      exists a: nat, b: nat, e: nat, g: nat :: SpelledFrom(line, call, p, a, b, e, g) && line[a..b] == name
  {
    if NamedCall(line, call, p) == Some(name) {
      NamedCallSpells(line, call, p);
    }
    if exists a: nat, b: nat, e: nat, g: nat :: SpelledFrom(line, call, p, a, b, e, g) && line[a..b] == name {
      var a: nat, b: nat, e: nat, g: nat :| SpelledFrom(line, call, p, a, b, e, g) && line[a..b] == name;
      AssignsUnique(line, call, b, e, g);
      NameUnique(line, call, p, a, b);
    }
  }

  lemma {:induction false} NamedCallSpells(line: String, call: String, p: nat)
    requires p <= |line| && NamedCall(line, call, p).Some?
    ensures exists a: nat, b: nat, e: nat, g: nat ::
      SpelledFrom(line, call, p, a, b, e, g) && line[a..b] == NamedCall(line, call, p).value
  {
    var a := p + LeadingWhiteSpace(line, p);
    var b := a + LeadingWord(line, a);
    var e := b + LeadingWhiteSpace(line, b);
    var g := e + 1 + LeadingWhiteSpace(line, e + 1);
    SpelledByRuns(line, call, p, a, b);
    assert SpelledFrom(line, call, p, a, b, e, g);
  }

  /** The positions the matcher reaches, when it succeeds, spell out the pattern. */
  lemma {:induction false} SpelledByRuns(line: String, call: String, p: nat, a: nat, b: nat)
    requires p < a < b <= |line| && AssignsCall(line, call, b)
    requires a == p + LeadingWhiteSpace(line, p) && b == a + LeadingWord(line, a)
    ensures var e := b + LeadingWhiteSpace(line, b);
      SpelledFrom(line, call, p, a, b, e, e + 1 + LeadingWhiteSpace(line, e + 1))
  {
    AssignsFound(line, call, b);
    LeadingWhiteSpaceRun(line, p);
    LeadingWordRun(line, a);
  }

  /** Where AssignsCall holds, the positions it reaches spell out AssignsAt. */
  lemma {:induction false} AssignsFound(line: String, call: String, b: nat)
    requires b <= |line| && AssignsCall(line, call, b)
    ensures var e := b + LeadingWhiteSpace(line, b);
      AssignsAt(line, call, b, e, e + 1 + LeadingWhiteSpace(line, e + 1))
  {
    LeadingWhiteSpaceRun(line, b);
    LeadingWhiteSpaceRun(line, b + LeadingWhiteSpace(line, b) + 1);
  }

  lemma {:induction false} NameUnique(line: String, call: String, p: nat, a: nat, b: nat)
    requires p < a < b < |line| && !IsWordChar(line[b]) && AssignsCall(line, call, b)
    requires forall k :: p <= k < a ==> IsWhiteSpace(line[k])
    requires forall k :: a <= k < b ==> IsWordChar(line[k])
    ensures NamedCall(line, call, p) == Some(line[a..b])
  {
    LeadingWhiteSpaceIs(line, p, a - p);
    LeadingWordIs(line, a, b - a);
  }

  lemma {:induction false} AssignsUnique(line: String, call: String, b: nat, e: nat, g: nat)
    requires AssignsAt(line, call, b, e, g) && call != [] && !IsWhiteSpace(call[0])
    ensures b < |line| && !IsWordChar(line[b]) && AssignsCall(line, call, b)
  {
    OccurrenceCovers(line, call, g, g);
    LeadingWhiteSpaceIs(line, b, e - b);
    LeadingWhiteSpaceIs(line, e + 1, g - e - 1);
  }

  /** The name captured by the leftmost match in `line` that starts at or after `from`. */
  function FirstDeclarationFrom(line: String, call: String, from: nat): Option<String>
    requires from <= |line|
    decreases |line| - from
  {
    if DeclarationAt(line, call, from).Some? then DeclarationAt(line, call, from)
    else if from == |line| then None
    else FirstDeclarationFrom(line, call, from + 1)
  }

  /** FirstDeclarationFrom finds a name exactly when some position matches, and
      then it is the name of the leftmost match. */
  lemma {:induction false} FirstDeclarationIsLeftmost(line: String, call: String, from: nat)
    requires from <= |line|
    ensures FirstDeclarationFrom(line, call, from).Some? <==>
      exists i :: from <= i <= |line| && DeclarationAt(line, call, i).Some?
    ensures FirstDeclarationFrom(line, call, from).Some? ==>
      exists i :: from <= i <= |line| && DeclarationAt(line, call, i) == FirstDeclarationFrom(line, call, from)
                    && forall j :: from <= j < i ==> DeclarationAt(line, call, j).None?
    decreases |line| - from
  {
    var r := FirstDeclarationFrom(line, call, from);
    if DeclarationAt(line, call, from).Some? {
      assert r == DeclarationAt(line, call, from);
    } else if from == |line| {
      assert r == None;
    } else {
      assert r == FirstDeclarationFrom(line, call, from + 1);
      FirstDeclarationIsLeftmost(line, call, from + 1);
      if r.Some? {
        var i :| from + 1 <= i <= |line| && DeclarationAt(line, call, i) == r
          && forall j :: from + 1 <= j < i ==> DeclarationAt(line, call, j).None?;
        assert forall j :: from <= j < i ==> DeclarationAt(line, call, j).None?;
      }
    }
  }

  /** The name declared on the first of `lines[from..]` that matches, if any. */
  function FirstDeclarationIn(lines: seq<String>, call: String, from: nat): (r: Option<String>)
    requires from <= |lines|
    ensures r.None? <==> forall j :: from <= j < |lines| ==> FirstDeclarationFrom(lines[j], call, 0).None?
    ensures r.Some? ==> exists j :: from <= j < |lines| && r == FirstDeclarationFrom(lines[j], call, 0)
                          && forall k :: from <= k < j ==> FirstDeclarationFrom(lines[k], call, 0).None?
    decreases |lines| - from
  {
    if from == |lines| then None
    else if FirstDeclarationFrom(lines[from], call, 0).Some? then FirstDeclarationFrom(lines[from], call, 0)
    else FirstDeclarationIn(lines, call, from + 1)
  }

  /** The call `get_mod("{modName}")` that the declaration of the mod variable ends with. */
  function GetModCall(modName: String): (r: String)
    ensures r != [] && r[0] == 'g'
  {
    "get_mod(\"" + modName + "\")"
  }

  /** GetModVariableName: the name declared on the first line of the mod script
      that matches. */
  function ModVariableName(lines: seq<String>, modName: String): Option<String> {
    FirstDeclarationIn(lines, GetModCall(modName), 0)
  }
}
