/** Editing one key of a config file by lines: `set_password_hash_in_toml` of server/src/settings.rs. */
module ConfigEditor {
  import opened Options

  // --- Text and lines ---------------------------------------------------------

  function IndexOfNewline(text: string): (i: nat)
    ensures i <= |text| && '\n' !in text[..i] && (i < |text| ==> text[i] == '\n')
  {
    if text == "" || text[0] == '\n' then 0 else 1 + IndexOfNewline(text[1..])
  }

  function DropReturn(line: string): string {
    if line != "" && line[|line| - 1] == '\r' then line[..|line| - 1] else line
  }

  /** `str::lines`: without terminators, and without an empty line after the last one. */
  function Lines(text: string): seq<string>
    decreases |text|
  {
    if text == "" then []
    else
      var i := IndexOfNewline(text);
      if i == |text| then [text] else [DropReturn(text[..i])] + Lines(text[i + 1..])
  }

  function Join(lines: seq<string>): string {
    if lines == [] then "" else if |lines| == 1 then lines[0] else lines[0] + "\n" + Join(lines[1..])
  }

  predicate EndsLine(text: string) {
    text == "" || text[|text| - 1] == '\n'
  }

  /** The line break a text ends in, if it does. */
  function Ending(text: string): string {
    if EndsLine(text) then "\n" else ""
  }

  function Finish(lines: seq<string>, original: string): string {
    Join(lines) + Ending(original)
  }

  predicate IsWhite(c: char) {
    c in "\t\n\r \U{0B}\U{0C}\U{85}\U{A0}\U{1680}\U{2028}\U{2029}\U{202F}\U{205F}\U{3000}" || '\U{2000}' <= c <= '\U{200A}'
  }

  function TrimStart(s: string): string {
    if s != "" && IsWhite(s[0]) then TrimStart(s[1..]) else s
  }

  function TrimEnd(s: string): string {
    if s != "" && IsWhite(s[|s| - 1]) then TrimEnd(s[..|s| - 1]) else s
  }

  // --- The edit ---------------------------------------------------------------

  const KEY := "password_hash"

  function Assignment(hash: string): string {
    "password_hash = \"" + hash + "\""
  }

  predicate IsAuth(line: string) {
    TrimEnd(TrimStart(line)) == "[auth]"
  }

  predicate IsSection(line: string) {
    "[" <= TrimStart(line)
  }

  predicate IsKey(line: string) {
    KEY <= TrimStart(line)
  }

  /** The first line from `from` on that is wanted, before any line that ends the search. */
  function Search(lines: seq<string>, wanted: string -> bool, ends: string -> bool, from: nat): Option<nat>
    decreases |lines| - from
  {
    if from >= |lines| || ends(lines[from]) then None
    else if wanted(lines[from]) then Some(from)
    else Search(lines, wanted, ends, from + 1)
  }

  lemma {:induction false} SearchFound(lines: seq<string>, wanted: string -> bool, ends: string -> bool, from: nat)
    ensures match Search(lines, wanted, ends, from)
      case Some(i) => from <= i < |lines| && wanted(lines[i]) && !ends(lines[i])
                      && forall j :: from <= j < i ==> !wanted(lines[j]) && !ends(lines[j])
      case None => forall j :: from <= j < |lines| && wanted(lines[j]) ==>
                     exists e :: from <= e <= j && ends(lines[e])
    decreases |lines| - from
  {
    if from < |lines| && !ends(lines[from]) && !wanted(lines[from]) { SearchFound(lines, wanted, ends, from + 1); }
  }

  /** A search depends only on the lines it passes: it finds `at` if that is the first wanted line and none ends it. */
  lemma {:induction false} SearchFinds(lines: seq<string>, wanted: string -> bool, ends: string -> bool, from: nat, at: nat)
    requires from <= at < |lines| && wanted(lines[at]) && !ends(lines[at])
    requires forall j :: from <= j < at ==> !wanted(lines[j]) && !ends(lines[j])
    ensures Search(lines, wanted, ends, from) == Some(at)
    decreases at - from
  {
    if from < at { SearchFinds(lines, wanted, ends, from + 1, at); }
  }

  function FindAuth(lines: seq<string>): (r: Option<nat>)
    ensures r.Some? ==> r.value < |lines|
  {
    SearchFound(lines, IsAuth, _ => false, 0);
    Search(lines, IsAuth, _ => false, 0)
  }

  /** The key line of the section whose header is line `auth`. */
  function FindKey(lines: seq<string>, auth: nat): (r: Option<nat>)
    ensures r.Some? ==> auth < r.value < |lines|
  {
    SearchFound(lines, IsKey, IsSection, auth + 1);
    Search(lines, IsKey, IsSection, auth + 1)
  }

  /** The lines after setting a hash, or after removing the key if the hash is empty. */
  function Edit(lines: seq<string>, hash: string): seq<string> {
    match FindAuth(lines)
    case None => if hash == "" then lines else lines + ["", "[auth]", Assignment(hash)]
    case Some(start) =>
      match FindKey(lines, start)
      case Some(k) =>
        if hash == "" then lines[..k] + lines[k + 1..] else lines[k := Assignment(hash)]
      case None =>
        if hash == "" then lines else lines[..start + 1] + [Assignment(hash)] + lines[start + 1..]
  }

  function SetHash(text: string, hash: string): string {
    Finish(Edit(Lines(text), hash), text)
  }

  method SetPasswordHashInToml(text: string, hash: string) returns (out: string)
    ensures out == SetHash(text, hash)
  {
    var lines := Lines(text);
    var auth := FindAuth(lines);
    var assignment := Assignment(hash);
    ghost var edited := Edit(lines, hash);
    if hash == "" {
      if auth.Some? {
        var index := FindKey(lines, auth.value);
        if index.Some? {
          lines := lines[..index.value] + lines[index.value + 1..];
        }
      }
      assert lines == edited;
      return Finish(lines, text);
    }
    if auth.Some? {
      var start := auth.value;
      var index := FindKey(lines, start);
      if index.Some? {
        lines := lines[index.value := assignment];
      } else {
        lines := lines[..start + 1] + [assignment] + lines[start + 1..];
      }
    } else {
      lines := lines + [""];
      lines := lines + ["[auth]"];
      lines := lines + [assignment];
      assert lines == Lines(text) + ["", "[auth]", assignment];
    }
    assert lines == edited;
    return Finish(lines, text);
  }

  // --- Splitting and joining --------------------------------------------------

  /** A line that survives being written and read back. */
  predicate CleanLine(line: string) {
    '\n' !in line && (line == "" || line[|line| - 1] != '\r')
  }

  predicate CleanLines(lines: seq<string>) {
    forall i :: 0 <= i < |lines| ==> CleanLine(lines[i])
  }

  lemma {:induction false} NewlineIs(text: string, k: nat)
    requires k <= |text| && '\n' !in text[..k] && (k < |text| ==> text[k] == '\n')
    ensures IndexOfNewline(text) == k
    decreases k
  {}

  /** A terminated line is read back as itself. */
  lemma LinesOfLine(line: string, rest: string)
    requires CleanLine(line)
    ensures Lines(line + "\n" + rest) == [line] + Lines(rest)
  {
    var text := line + "\n" + rest;
    assert text[..|line|] == line && text[|line| + 1..] == rest;
    NewlineIs(text, |line|);
  }

  /** So is a last line without a terminator, unless it is empty. */
  lemma LinesOfLast(line: string)
    requires '\n' !in line && line != ""
    ensures Lines(line) == [line]
  {}

  lemma {:induction false} LinesOfJoin(lines: seq<string>, ended: bool)
    requires lines != [] && CleanLines(lines)
    requires !ended ==> lines[|lines| - 1] != ""
    ensures Lines(Join(lines) + if ended then "\n" else "") == lines
  {
    var tail := if ended then "\n" else "";
    var first, rest := lines[0], lines[1..];
    assert lines == [first] + rest;
    JoinCons(first, rest);
    if rest == [] {
      LinesOfSingle(first, ended);
    } else {
      RestIsClean(lines);
      LinesOfJoin(rest, ended);
      LinesOfLine(first, Join(rest) + tail);
      PutBack(first, Join(rest), tail);
    }
  }

  lemma RestIsClean(lines: seq<string>)
    requires |lines| > 1 && CleanLines(lines)
    ensures CleanLine(lines[0]) && CleanLines(lines[1..]) && lines[1..][|lines| - 2] == lines[|lines| - 1]
  {}

  lemma LinesOfSingle(line: string, ended: bool)
    requires CleanLine(line) && (!ended ==> line != "")
    ensures Lines(line + if ended then "\n" else "") == [line]
  {
    if ended {
      LinesOfLine(line, "");
      assert line + "\n" + "" == line + "\n";
    } else {
      LinesOfLast(line);
      assert line + "" == line;
    }
  }

  lemma WithoutReturn(text: string, i: nat)
    requires '\r' !in text && i <= |text|
    ensures '\r' !in text[..i] && '\r' !in text[i..] && DropReturn(text[..i]) == text[..i]
    ensures '\n' !in text[..i] ==> CleanLine(text[..i])
  {}

  lemma JoinCons(head: string, tail: seq<string>)
    ensures Join([head] + tail) == if tail == [] then head else head + "\n" + Join(tail)
  {}

  lemma CutAtBreak(text: string, i: nat)
    requires i < |text| && text[i] == '\n'
    ensures text == text[..i] + "\n" + text[i + 1..] && EndsLine(text) == EndsLine(text[i + 1..])
  {}

  lemma {:induction false} FirstLine(text: string)
    requires '\r' !in text && IndexOfNewline(text) < |text|
    ensures var i := IndexOfNewline(text);
      && CleanLine(text[..i])
      && Lines(text) == [text[..i]] + Lines(text[i + 1..])
      && '\r' !in text[i + 1..]
  {}

  lemma PutBack(head: string, joined: string, ending: string)
    ensures head + "\n" + joined + ending == head + "\n" + (joined + ending)
  {}

  /** A text without returns is the join of its lines. */
  lemma {:induction false} JoinOfLines(text: string)
    requires text != "" && '\r' !in text
    ensures Lines(text) != [] && CleanLines(Lines(text)) && Join(Lines(text)) + Ending(text) == text
    decreases |text|
  {
    var i := IndexOfNewline(text);
    if i == |text| {
      OnlyLine(text);
    } else {
      var head, rest := text[..i], text[i + 1..];
      FirstLine(text);
      CutAtBreak(text, i);
      if rest != "" { JoinOfLines(rest); }
      LineAndLines(head, rest, Lines(rest));
    }
  }

  lemma OnlyLine(text: string)
    requires text != "" && '\r' !in text && IndexOfNewline(text) == |text|
    ensures Lines(text) == [text] && CleanLine(text) && Ending(text) == ""
  {
    WithoutReturn(text, |text|);
    assert text[..|text|] == text && text[|text| - 1] in text;
  }

  /** A line joined with the lines of what follows it. */
  lemma LineAndLines(head: string, rest: string, lines: seq<string>)
    requires if rest == "" then lines == [] else lines != [] && Join(lines) + Ending(rest) == rest
    ensures Join([head] + lines) + Ending(rest) == head + "\n" + rest
  {
    JoinCons(head, lines);
    if rest != "" { PutBack(head, Join(lines), Ending(rest)); }
  }

  lemma {:induction false} LastLineNonEmpty(text: string)
    requires !EndsLine(text)
    ensures Lines(text) != [] && Lines(text)[|Lines(text)| - 1] != ""
    decreases |text|
  {
    var i := IndexOfNewline(text);
    if i < |text| {
      CutAtBreak(text, i);
      LastLineNonEmpty(text[i + 1..]);
      assert Lines(text) == [DropReturn(text[..i])] + Lines(text[i + 1..]);
    }
  }

  // --- What a set does --------------------------------------------------------

  lemma EditIsClean(lines: seq<string>, hash: string)
    requires CleanLines(lines) && hash != "" && '\n' !in hash
    ensures CleanLines(Edit(lines, hash)) && Edit(lines, hash) != []
  {
    AssignmentIsClean(hash);
    EditMembers(lines, hash);
    assert CleanLine("") && CleanLine("[auth]");
  }

  lemma AssignmentIsClean(hash: string)
    requires '\n' !in hash
    ensures CleanLine(Assignment(hash))
  {
    var line := Assignment(hash);
    assert line[|line| - 1] == '"';
  }

  lemma EditMembers(lines: seq<string>, hash: string)
    requires hash != ""
    ensures var after := Edit(lines, hash);
      after != [] && forall i :: 0 <= i < |after| ==> after[i] in lines || after[i] in ["", "[auth]", Assignment(hash)]
  {}

  /** The lines set in a text are the lines read back from it. */
  lemma {:induction false} LinesAfterSet(text: string, hash: string)
    requires CleanLines(Lines(text)) && hash != "" && '\n' !in hash
    ensures Lines(SetHash(text, hash)) == Edit(Lines(text), hash)
    ensures CleanLines(Lines(SetHash(text, hash)))
    ensures EndsLine(SetHash(text, hash)) <==> EndsLine(text)
  {
    var after := Edit(Lines(text), hash);
    EditIsClean(Lines(text), hash);
    if EndsLine(text) {
      LinesOfJoin(after, true);
    } else {
      LastLineNonEmpty(text);
      EditLast(Lines(text), hash);
      LinesOfJoin(after, false);
      JoinEnds(after);
      assert SetHash(text, hash) == Join(after);
    }
  }

  lemma EditLast(lines: seq<string>, hash: string)
    requires hash != "" && lines != [] && lines[|lines| - 1] != ""
    ensures Edit(lines, hash)[|Edit(lines, hash)| - 1] != ""
  {}

  lemma {:induction false} JoinEnds(lines: seq<string>)
    requires lines != [] && lines[|lines| - 1] != "" && CleanLine(lines[|lines| - 1])
    ensures !EndsLine(Join(lines))
  {
    if |lines| > 1 { JoinEnds(lines[1..]); }
  }

  lemma HeaderIsAuth()
    ensures IsAuth("[auth]") && !IsAuth("") && !IsSection("")
  {
    StartsBlack("[auth]");
    assert TrimStart("") == "" && TrimEnd("") == "";
  }

  /** The line written is the key line, and no header of any kind. */
  lemma AssignmentIsKey(hash: string)
    ensures IsKey(Assignment(hash)) && !IsSection(Assignment(hash)) && !IsAuth(Assignment(hash))
  {}

  lemma {:induction false} TrimEndKeepsFirst(s: string)
    requires s != "" && !IsWhite(s[0])
    ensures TrimEnd(s) != "" && TrimEnd(s)[0] == s[0]
  {
    if IsWhite(s[|s| - 1]) { TrimEndKeepsFirst(s[..|s| - 1]); }
  }

  /** The header of the section a set writes to. */
  function HeaderAfter(lines: seq<string>): nat {
    if FindAuth(lines).Some? then FindAuth(lines).value else |lines| + 1
  }

  /** The line a set writes to: the key line found, or the one after the header. */
  function KeyAfter(lines: seq<string>): nat {
    var header := HeaderAfter(lines);
    if FindAuth(lines).Some? && FindKey(lines, header).Some? then FindKey(lines, header).value else header + 1
  }

  /** A set leaves the lines before its own as they are, and keeps or adds the header. */
  lemma {:induction false} HeaderStays(lines: seq<string>, hash: string)
    requires hash != ""
    ensures var after, header := Edit(lines, hash), HeaderAfter(lines);
      && header < KeyAfter(lines) < |after| && after[KeyAfter(lines)] == Assignment(hash)
      && (forall j :: header < j < KeyAfter(lines) ==> j < |lines| && after[j] == lines[j])
      && FindAuth(after) == Some(header)
  {
    var after, header := Edit(lines, hash), HeaderAfter(lines);
    if FindAuth(lines).Some? {
      KeyIsWritten(lines, hash);
      SameHeader(lines, after, header);
    } else {
      AddedHeader(lines, after);
    }
  }

  lemma KeyIsWritten(lines: seq<string>, hash: string)
    requires hash != "" && FindAuth(lines).Some?
    ensures var after, header, k := Edit(lines, hash), HeaderAfter(lines), KeyAfter(lines);
      && header < k < |after| && after[k] == Assignment(hash)
      && forall j :: 0 <= j < k ==> j < |lines| && after[j] == lines[j]
  {}

  lemma SameHeader(lines: seq<string>, after: seq<string>, header: nat)
    requires FindAuth(lines) == Some(header) && header < |after|
    requires forall j :: 0 <= j <= header ==> after[j] == lines[j]
    ensures FindAuth(after) == Some(header)
  {
    SearchFound(lines, IsAuth, _ => false, 0);
    SearchFinds(after, IsAuth, _ => false, 0, header);
  }

  lemma AddedHeader(lines: seq<string>, after: seq<string>)
    requires FindAuth(lines).None? && lines + ["", "[auth]"] <= after
    ensures FindAuth(after) == Some(|lines| + 1)
  {
    HeaderIsAuth();
    SearchFound(lines, IsAuth, _ => false, 0);
    forall j | 0 <= j < |lines| ensures !IsAuth(after[j]) { assert after[j] == lines[j]; }
    assert after[|lines|] == "" && after[|lines| + 1] == "[auth]";
    SearchFinds(after, IsAuth, _ => false, 0, |lines| + 1);
  }

  /** After a set, the `[auth]` section's key line is the one written, wherever it went. */
  lemma {:induction false} WrittenLineIsFound(lines: seq<string>, hash: string)
    requires hash != ""
    ensures var after := Edit(lines, hash);
      && FindAuth(after) == Some(HeaderAfter(lines))
      && FindKey(after, HeaderAfter(lines)) == Some(KeyAfter(lines))
      && KeyAfter(lines) < |after| && after[KeyAfter(lines)] == Assignment(hash)
  {
    var header := HeaderAfter(lines);
    HeaderStays(lines, hash);
    AssignmentIsKey(hash);
    SearchFound(lines, IsKey, IsSection, header + 1);
    SearchFinds(Edit(lines, hash), IsKey, IsSection, header + 1, KeyAfter(lines));
  }

  // --- Setting twice, and setting then removing -------------------------------

  lemma {:induction false} EditTwice(lines: seq<string>, a: string, b: string)
    requires a != "" && b != ""
    ensures Edit(Edit(lines, a), b) == Edit(lines, b)
  {
    WrittenLineIsFound(lines, a);
    FoundLineIsReplaced(Edit(lines, a), b);
    SamePlace(lines, a, b);
  }

  lemma FoundLineIsReplaced(lines: seq<string>, hash: string)
    requires hash != "" && FindAuth(lines).Some? && FindKey(lines, FindAuth(lines).value).Some?
    ensures Edit(lines, hash) == lines[FindKey(lines, FindAuth(lines).value).value := Assignment(hash)]
  {}

  /** Two sets differ in the line written only. */
  lemma SamePlace(lines: seq<string>, a: string, b: string)
    requires a != "" && b != "" && KeyAfter(lines) < |Edit(lines, a)|
    ensures Edit(lines, a)[KeyAfter(lines) := Assignment(b)] == Edit(lines, b)
  {}

  lemma {:induction false} EditThenRemove(lines: seq<string>, hash: string)
    requires hash != "" && FindAuth(lines).Some? && FindKey(lines, FindAuth(lines).value).None?
    ensures Edit(Edit(lines, hash), "") == lines
  {
    WrittenLineIsFound(lines, hash);
    FoundLineGoes(Edit(lines, hash), "");
    CutInserted(lines, HeaderAfter(lines) + 1, Assignment(hash));
  }

  /** The last write wins: nothing of an earlier hash is left. */
  lemma LastWriteWins(text: string, a: string, b: string)
    requires CleanLines(Lines(text)) && a != "" && b != "" && '\n' !in a
    ensures SetHash(SetHash(text, a), b) == SetHash(text, b)
  {
    LinesAfterSet(text, a);
    EditTwice(Lines(text), a, b);
  }

  /** Setting a hash in an `[auth]` section without the key and removing it again restores the text exactly. */
  lemma InsertThenRemove(text: string, hash: string)
    requires '\r' !in text && hash != "" && '\n' !in hash
    requires FindAuth(Lines(text)).Some? && FindKey(Lines(text), FindAuth(Lines(text)).value).None?
    ensures SetHash(SetHash(text, hash), "") == text
  {
    JoinOfLines(text);
    LinesAfterSet(text, hash);
    EditThenRemove(Lines(text), hash);
  }

  // --- What survives ----------------------------------------------------------

  /** A line that assigns the key itself, rather than one whose name only begins like it. */
  predicate AssignsKey(line: string) {
    IsKey(line) && "=" <= TrimStart(TrimStart(line)[|KEY|..])
  }

  /** The lines but the one at `k`. */
  function Cut(lines: seq<string>, k: nat): seq<string>
    requires k < |lines|
  {
    lines[..k] + lines[k + 1..]
  }

  lemma AssignmentAssigns(hash: string)
    ensures AssignsKey(Assignment(hash))
  {
    var value := "= \"" + hash + "\"";
    AssignmentIsKey(hash);
    StartsBlack(Assignment(hash));
    assert Assignment(hash)[|KEY|..] == " " + value;
    OneBlank(value);
  }

  lemma OneBlank(s: string)
    requires s != "" && !IsWhite(s[0])
    ensures TrimStart(" " + s) == s
  {
    StartsBlack(s);
    assert (" " + s)[1..] == s;
  }

  /**
   Every line but one survives a set, in its place. The line at `KeyAfter` is the one written; the others are all the
   lines before, an empty line and a header being added to a file without the section, except that a line found in the
   section is replaced. That is the only line lost.
   */
  lemma {:induction false} OthersSurvive(text: string, hash: string)
    requires CleanLines(Lines(text)) && hash != "" && '\n' !in hash
    ensures var before, after, k := Lines(text), Lines(SetHash(text, hash)), KeyAfter(Lines(text));
      && k < |after| && after[k] == Assignment(hash)
      && match FindAuth(before)
         case None => Cut(after, k) == before + ["", "[auth]"]
         case Some(header) =>
           match FindKey(before, header)
           case None => Cut(after, k) == before
           case Some(found) => found == k && Cut(after, k) == Cut(before, k)
  {
    LinesAfterSet(text, hash);
    WrittenLineIsFound(Lines(text), hash);
    EditKeepsOthers(Lines(text), hash);
  }

  lemma {:induction false} EditKeepsOthers(before: seq<string>, hash: string)
    requires hash != "" && KeyAfter(before) < |Edit(before, hash)|
    ensures var rest, k := Cut(Edit(before, hash), KeyAfter(before)), KeyAfter(before);
      match FindAuth(before)
      case None => rest == before + ["", "[auth]"]
      case Some(header) =>
        match FindKey(before, header)
        case None => rest == before
        case Some(found) => found == k && rest == Cut(before, k)
  {
    var k, line := KeyAfter(before), Assignment(hash);
    if FindAuth(before).None? {
      CutAdded(before, "", "[auth]", line);
    } else if FindKey(before, HeaderAfter(before)).None? {
      CutInserted(before, k, line);
    } else {
      FoundLineGoes(before, hash);
    }
  }

  lemma CutAdded(lines: seq<string>, a: string, b: string, c: string)
    ensures Cut(lines + [a, b, c], |lines| + 2) == lines + [a, b]
  {}

  lemma CutInserted(lines: seq<string>, at: nat, line: string)
    requires at <= |lines|
    ensures Cut(lines[..at] + [line] + lines[at..], at) == lines
  {}

  /** The lines read back after a removal are those removed from, unless an empty line becomes the unfinished last one. */
  lemma LinesAfterRemoval(text: string)
    requires CleanLines(Lines(text))
    ensures var after := Edit(Lines(text), "");
      Lines(SetHash(text, "")) == after <==> text != "" && (EndsLine(text) || after[|after| - 1] != "")
  {
    var before, after := Lines(text), Edit(Lines(text), "");
    if text == "" {
      LinesOfLine("", "");
      assert SetHash(text, "") == "" + "\n" + "";
    } else {
      RemovalIsClean(before);
      if EndsLine(text) {
        LinesOfJoin(after, true);
      } else {
        LastLineNonEmpty(text);
        UnfinishedLines(after);
        assert SetHash(text, "") == Join(after);
      }
    }
  }

  /** Lines joined without a last line break are read back exactly if the last is not empty. */
  lemma {:induction false} UnfinishedLines(lines: seq<string>)
    requires CleanLines(lines) && lines != [] && (lines[|lines| - 1] == "" ==> |lines| > 1)
    ensures Lines(Join(lines)) == lines <==> lines[|lines| - 1] != ""
  {
    if lines[|lines| - 1] == "" {
      UnfinishedEmptyLine(lines);
    } else {
      LinesOfJoin(lines, false);
      assert Join(lines) + "" == Join(lines);
    }
  }

  lemma RemovalIsClean(lines: seq<string>)
    requires CleanLines(lines) && lines != []
    ensures var after := Edit(lines, "");
      after != [] && CleanLines(after) && (lines[|lines| - 1] != "" && after[|after| - 1] == "" ==> |after| > 1)
  {
    if FindAuth(lines).Some? && FindKey(lines, FindAuth(lines).value).Some? {
      var header, k := FindAuth(lines).value, FindKey(lines, FindAuth(lines).value).value;
      FoundLineGoes(lines, "");
      HeaderIsNotEmpty(lines);
      CutIsClean(lines, header, k);
      assert |Cut(lines, k)| == |lines| - 1;
    }
  }

  lemma HeaderIsNotEmpty(lines: seq<string>)
    requires FindAuth(lines).Some?
    ensures lines[FindAuth(lines).value] != ""
  {
    SearchFound(lines, IsAuth, _ => false, 0);
    HeaderIsAuth();
  }

  lemma CutIsClean(lines: seq<string>, header: nat, k: nat)
    requires CleanLines(lines) && header < k < |lines| && lines[header] != ""
    ensures CleanLines(Cut(lines, k)) && Cut(lines, k) != []
    ensures Cut(lines, k)[|lines| - 2] == "" ==> |lines| > 2
  {}

  lemma {:induction false} UnfinishedEmptyLine(lines: seq<string>)
    requires |lines| > 1 && CleanLines(lines) && lines[|lines| - 1] == ""
    ensures Lines(Join(lines)) != lines
  {
    var init := lines[..|lines| - 1];
    JoinSnoc(init, "");
    LinesOfJoin(init, true);
    assert Join(lines) == Join(init) + "\n" by { assert lines == init + [""]; }
  }

  lemma {:induction false} JoinSnoc(init: seq<string>, last: string)
    requires init != []
    ensures Join(init + [last]) == Join(init) + "\n" + last
  {
    if |init| == 1 {
      assert (init + [last])[1..] == [last];
    } else {
      JoinSnoc(init[1..], last);
      assert (init + [last])[1..] == init[1..] + [last];
      assert Join(init + [last]) == init[0] + "\n" + (Join(init[1..]) + "\n" + last);
    }
  }

  // --- Whose line is lost -----------------------------------------------------

  /** `rest` is `lines`, or `lines` but for one that assigns the key. */
  ghost predicate ButTheKey(lines: seq<string>, rest: seq<string>) {
    rest == lines || exists i :: IsCutKey(lines, rest, i)
  }

  ghost predicate IsCutKey(lines: seq<string>, rest: seq<string>, i: int) {
    0 <= i < |lines| && AssignsKey(lines[i]) && rest == Cut(lines, i)
  }

  lemma {:induction false} CutKeepsCount(lines: seq<string>, k: nat, line: string)
    requires k < |lines|
    ensures multiset(Cut(lines, k))[line] == multiset(lines)[line] - if lines[k] == line then 1 else 0
  {
    assert lines == lines[..k] + [lines[k]] + lines[k + 1..];
  }

  lemma ButTheKeyKeeps(lines: seq<string>, rest: seq<string>, line: string)
    requires ButTheKey(lines, rest) && !AssignsKey(line)
    ensures multiset(rest)[line] == multiset(lines)[line]
  {
    if rest != lines {
      var i :| IsCutKey(lines, rest, i);
      CutKeepsCount(lines, i, line);
    }
  }

  /**
   An edit of a section with a line found in it, set or remove: nothing but an assignment of the key is lost if and only
   if that line is one. The search accepts any line that begins with the key's name.
   */
  lemma {:induction false} OnlyTheKeyIsLost(before: seq<string>, hash: string)
    requires FindAuth(before).Some? && FindKey(before, FindAuth(before).value).Some?
    ensures AssignsKey(before[FindKey(before, FindAuth(before).value).value]) <==>
      exists rest :: ButTheKey(before, rest) && ButTheKey(Edit(before, hash), rest)
  {
    var k, after := FindKey(before, FindAuth(before).value).value, Edit(before, hash);
    var line := before[k];
    FoundLineGoes(before, hash);
    if AssignsKey(line) {
      assert IsCutKey(before, Cut(before, k), k);
      if hash != "" {
        AssignmentAssigns(hash);
        assert IsCutKey(after, Cut(before, k), k);
      }
      assert ButTheKey(before, Cut(before, k)) && ButTheKey(after, Cut(before, k));
    } else if rest :| ButTheKey(before, rest) && ButTheKey(after, rest) {
      ButTheKeyKeeps(before, rest, line);
      ButTheKeyKeeps(after, rest, line);
      CountGoesDown(before, hash);
    }
  }

  lemma FoundLineGoes(before: seq<string>, hash: string)
    requires FindAuth(before).Some? && FindKey(before, FindAuth(before).value).Some?
    ensures var k, after := FindKey(before, FindAuth(before).value).value, Edit(before, hash);
      if hash == "" then after == Cut(before, k)
      else |after| == |before| && after[k] == Assignment(hash) && Cut(after, k) == Cut(before, k)
  {}

  lemma CountGoesDown(before: seq<string>, hash: string)
    requires FindAuth(before).Some? && FindKey(before, FindAuth(before).value).Some?
    requires !AssignsKey(before[FindKey(before, FindAuth(before).value).value])
    ensures var line := before[FindKey(before, FindAuth(before).value).value];
      multiset(Edit(before, hash))[line] == multiset(before)[line] - 1
  {
    var k, after := FindKey(before, FindAuth(before).value).value, Edit(before, hash);
    FoundLineGoes(before, hash);
    CutKeepsCount(before, k, before[k]);
    if hash != "" {
      AssignmentAssigns(hash);
      CutKeepsCount(after, k, before[k]);
    }
  }

  lemma {:induction false} LongerKeyIsTaken()
    ensures var line := "password_hash_algo = 1"; IsKey(line) && !IsSection(line) && !AssignsKey(line)
  {
    var line := "password_hash_algo = 1";
    assert line[0] == 'p' && line[|KEY|] == '_';
    StartsBlack(line);
    StartsBlack(line[|KEY|..]);
  }

  lemma StartsBlack(s: string)
    requires s != "" && !IsWhite(s[0])
    ensures TrimStart(s) == s
  {}

  /** A line of another key that is lost: `password_hash_algo` is overwritten by a set and taken away by a removal. */
  lemma {:induction false} LongerKeyIsLost()
    ensures var before := ["[auth]", "password_hash_algo = 1"];
      Edit(before, "h") == ["[auth]", Assignment("h")] && Edit(before, "") == ["[auth]"]
  {
    var before := ["[auth]", "password_hash_algo = 1"];
    HeaderIsAuth();
    LongerKeyIsTaken();
    SearchFinds(before, IsAuth, _ => false, 0, 0);
    SearchFinds(before, IsKey, IsSection, 1, 1);
  }
}
