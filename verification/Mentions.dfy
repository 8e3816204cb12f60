/** Mentions in a prompt, as URLs. A URL is the record that parsing its text gives; how a path is encoded in a URL is left
    open. */
module Mentions {
  import opened Options

  type U32 = n: int | 0 <= n < 0x1_0000_0000

  datatype Url = Url(scheme: string, host: string, path: string, query: seq<(string, string)>, fragment: Option<string>)

  /** A URL as it was written, and whether its text ends in a slash. */
  datatype Input = Input(url: Url, endsInSlash: bool)

  /** How the URL library stores a path and how the path is read from it, and the canonical form of an id, if it is one. */
  datatype Codec = Codec(encode: string -> string, decode: string -> string, uuid: string -> Option<string>)

  datatype PathStyle = Posix | Windows

  datatype PromptId = UserPrompt(uuid: string) | BuiltIn(title: string)

  datatype Mention =
    | File(absPath: string)
    | PastedImage(name: string)
    | Directory(absPath: string)
    | Symbol(absPath: string, name: string, first: U32, last: U32)
    | Thread(id: string, name: string)
    | Rule(prompt: PromptId, name: string)
    | Diagnostics(includeErrors: bool, includeWarnings: bool)
    | Selection(path: Option<string>, first: U32, last: U32)
    | Fetch(url: Url)
    | TerminalSelection(lineCount: U32)
    | GitDiff(baseRef: string)
    | MergeConflict(filePath: string)

  // ----- strings

  predicate StartsWith(s: string, prefix: string) { prefix <= s }

  predicate EndsInSlash(s: string) { s != "" && s[|s| - 1] == '/' }

  function StripPrefix(s: string, prefix: string): string {
    if prefix <= s then s[|prefix|..] else s
  }

  function TrimSlashes(s: string): string {
    if s != "" && s[0] == '/' then TrimSlashes(s[1..]) else s
  }

  function SplitOnce(s: string, c: char): Option<(string, string)> {
    if s == "" then None
    else if s[0] == c then Some(("", s[1..]))
    else
      match SplitOnce(s[1..], c)
      case None => None
      case Some((a, b)) => Some(([s[0]] + a, b))
  }

  lemma {:induction false} SplitsAt(a: string, c: char, b: string)
    requires forall k | 0 <= k < |a| :: a[k] != c
    ensures SplitOnce(a + [c] + b, c) == Some((a, b))
  {
    var s := a + [c] + b;
    if a == "" {
      assert s[1..] == b;
    } else {
      assert s[1..] == a[1..] + [c] + b;
      SplitsAt(a[1..], c, b);
      assert a == [a[0]] + a[1..];
    }
  }

  lemma {:induction false} DoesNotSplit(a: string, c: char)
    requires forall k | 0 <= k < |a| :: a[k] != c
    ensures SplitOnce(a, c) == None
  {
    if a != "" {
      DoesNotSplit(a[1..], c);
    }
  }

  // ----- numbers

  predicate IsDigit(c: char) { '0' <= c <= '9' }

  predicate AllDigits(s: string) {
    s != "" && forall k | 0 <= k < |s| :: IsDigit(s[k])
  }

  function Value(s: string): nat
    requires forall k | 0 <= k < |s| :: IsDigit(s[k])
  {
    if s == "" then 0
    else
      assert IsDigit(s[|s| - 1]);
      10 * Value(s[..|s| - 1]) + (s[|s| - 1] as int - '0' as int)
  }

  /** Digits, with a plus sign or without, of a number that fits. */
  function ParseU32(s: string): Option<U32> {
    var digits := StripPrefix(s, "+");
    if AllDigits(digits) && Value(digits) < 0x1_0000_0000 then Some(Value(digits)) else None
  }

  function Decimal(n: nat): string {
    (if n < 10 then "" else Decimal(n / 10)) + [('0' as int + n % 10) as char]
  }

  lemma {:induction false} DecimalDigits(n: nat)
    ensures AllDigits(Decimal(n)) && Value(Decimal(n)) == n
  {
    var last := ('0' as int + n % 10) as char;
    if n >= 10 {
      DecimalDigits(n / 10);
      assert Decimal(n)[..|Decimal(n)| - 1] == Decimal(n / 10);
    } else {
      assert Decimal(n) == [last] && Decimal(n)[..0] == "";
    }
  }

  lemma ParsesDecimal(n: U32)
    ensures ParseU32(Decimal(n)) == Some(n) && AllDigits(Decimal(n))
  {
    DecimalDigits(n);
    assert Decimal(n)[0] != '+';
  }

  // ----- line ranges

  function Line(s: string): Option<U32> {
    match ParseU32(s)
    case None => None
    case Some(n) => if n == 0 then None else Some(n - 1)
  }

  function ParseLineRange(fragment: string): Option<(U32, U32)> {
    var range := StripPrefix(fragment, "L");
    var (start, end) :=
      match SplitOnce(range, ':')
      case Some((start, end)) => (start, end)
      case None =>
        match SplitOnce(range, '-')
        case Some((start, end)) => (start, StripPrefix(end, "L"))
        case None => (range, range);
    if Line(start).Some? && Line(end).Some? then Some((Line(start).value, Line(end).value)) else None
  }

  /** Line numbers are printed from 1 on; the sum wraps around. */
  function PrintLine(n: U32): string {
    Decimal((n + 1) % 0x1_0000_0000)
  }

  function PrintLineRange(first: U32, last: U32): string {
    "L" + PrintLine(first) + ":" + PrintLine(last)
  }

  const LAST_LINE: U32 := 0xFFFF_FFFF

  lemma PrintedLine(n: U32)
    ensures AllDigits(PrintLine(n)) && Line(PrintLine(n)) == if n == LAST_LINE then None else Some(n)
  {
    ParsesDecimal((n + 1) % 0x1_0000_0000);
  }

  lemma Stripped(s: string, rest: string)
    ensures StripPrefix("L" + s + rest, "L") == s + rest && StripPrefix("L" + s, "L") == s
    ensures AllDigits(s) ==> StripPrefix(s + rest, "L") == s + rest && StripPrefix(s, "L") == s
  {
    assert "L" <= "L" + s + rest && ("L" + s + rest)[1..] == s + rest && ("L" + s)[1..] == s;
    if AllDigits(s) {
      assert s[0] != 'L' && (s + rest)[0] == s[0];
    }
  }

  lemma JoinedRange(a: string, c: string, b: string)
    requires AllDigits(a) && AllDigits(b) && (c == ":" || c == "-" || c == "-L")
    ensures SplitOnce(a + c + b, ':') == if c == ":" then Some((a, b)) else None
    ensures c == "-" ==> SplitOnce(a + c + b, '-') == Some((a, b))
    ensures c == "-L" ==> SplitOnce(a + c + b, '-') == Some((a, "L" + b))
  {
    if c == ":" {
      SplitsAt(a, ':', b);
    } else {
      DoesNotSplit(a + c + b, ':');
      if c == "-" {
        SplitsAt(a, '-', b);
      } else {
        SplitsAt(a, '-', "L" + b);
        assert a + c + b == a + ['-'] + ("L" + b);
      }
    }
  }

  /** A line range may be written in five ways, with an `L` in front or without, and all of them are read alike: first and
      last line with a colon, with a dash, or with a dash and an `L`, or a single line. The range is read exactly if
      neither line number wraps around. */
  lemma LineRangesParse(first: U32, last: U32, prefix: string, sep: string)
    requires prefix in {"", "L"} && sep in {":", "-", "-L"}
    ensures ParseLineRange(prefix + (PrintLine(first) + sep + PrintLine(last)))
         == if first < LAST_LINE && last < LAST_LINE then Some((first, last)) else None
    ensures ParseLineRange(prefix + PrintLine(first)) == if first < LAST_LINE then Some((first, first)) else None
  {
    var a, b := PrintLine(first), PrintLine(last);
    PrintedLine(first);
    PrintedLine(last);
    hide PrintLine, Line, SplitOnce;
    assert "L" + (a + sep + b) == "L" + a + (sep + b) && a + sep + b == a + (sep + b);
    assert "" + (a + sep + b) == a + sep + b && "" + a == a;
    Stripped(a, sep + b);
    Stripped(b, "");
    JoinedRange(a, sep, b);
    DoesNotSplit(a, ':');
    DoesNotSplit(a, '-');
  }

  lemma PrintedLineRange(first: U32, last: U32)
    ensures ParseLineRange(PrintLineRange(first, last))
         == if first < LAST_LINE && last < LAST_LINE then Some((first, last)) else None
  {
    hide PrintLine, ParseLineRange;
    LineRangesParse(first, last, "L", ":");
    assert "L" + (PrintLine(first) + ":" + PrintLine(last)) == PrintLineRange(first, last);
  }

  // ----- queries

  datatype Lookup = Absent | Found(value: string) | Invalid

  function SingleQueryParam(query: seq<(string, string)>, name: string): Lookup {
    if query == [] then Absent
    else if |query| == 1 && query[0].0 == name then Found(query[0].1)
    else Invalid
  }

  /** The flags that the query sets, the last value of a name counting. */
  function DiagnosticsFlags(query: seq<(string, string)>, errors: bool, warnings: bool): Option<(bool, bool)> {
    if query == [] then Some((errors, warnings))
    else if query[0].0 == "include_warnings" then DiagnosticsFlags(query[1..], errors, query[0].1 == "true")
    else if query[0].0 == "include_errors" then DiagnosticsFlags(query[1..], query[0].1 == "true", warnings)
    else None
  }

  function LastValue(query: seq<(string, string)>, name: string): Option<string> {
    if query == [] then None
    else if query[|query| - 1].0 == name then Some(query[|query| - 1].1)
    else LastValue(query[..|query| - 1], name)
  }

  predicate OnlyFlags(query: seq<(string, string)>) {
    forall k | 0 <= k < |query| :: query[k].0 == "include_errors" || query[k].0 == "include_warnings"
  }

  function Flag(value: Option<string>, default: bool): bool {
    match value
    case Some(v) => v == "true"
    case None => default
  }

  /** The flags are read exactly if the query names nothing else. Each is set if its last value is `true`, and not if that is
      anything else. */
  lemma {:induction false} FlagsAreLastValues(query: seq<(string, string)>, errors: bool, warnings: bool)
    ensures DiagnosticsFlags(query, errors, warnings)
         == if OnlyFlags(query) then
              Some((Flag(LastValue(query, "include_errors"), errors), Flag(LastValue(query, "include_warnings"), warnings)))
            else None
    decreases |query|
  {
    if query != [] {
      var e, w := "include_errors", "include_warnings";
      assert |e| != |w|;
      LastValueFirst(query, e);
      LastValueFirst(query, w);
      hide LastValue;
      assert forall k | 0 < k < |query| :: query[k] == query[1..][k - 1];
      var (name, value) := query[0];
      if name == w {
        FlagsAreLastValues(query[1..], errors, value == "true");
      } else if name == e {
        FlagsAreLastValues(query[1..], value == "true", warnings);
      }
    }
  }

  lemma {:induction false} LastValueFirst(query: seq<(string, string)>, name: string)
    requires query != []
    ensures LastValue(query, name)
         == match LastValue(query[1..], name)
            case Some(v) => Some(v)
            case None => if query[0].0 == name then Some(query[0].1) else None
    decreases |query|
  {
    if |query| > 1 {
      var last := |query| - 1;
      assert query[1..][|query[1..]| - 1] == query[last] && query[1..][..last - 1] == query[..last][1..];
      LastValueFirst(query[..last], name);
    }
  }

  method ReadDiagnosticsFlags(query: seq<(string, string)>) returns (flags: Option<(bool, bool)>)
    ensures flags == DiagnosticsFlags(query, true, false)
  {
    var includeErrors, includeWarnings := true, false;
    assert query[0..] == query;
    for k := 0 to |query|
      invariant DiagnosticsFlags(query, true, false) == DiagnosticsFlags(query[k..], includeErrors, includeWarnings)
    {
      assert query[k..][1..] == query[k + 1..];
      var (key, value) := query[k];
      if key == "include_warnings" {
        includeWarnings := value == "true";
      } else if key == "include_errors" {
        includeErrors := value == "true";
      } else {
        return None;
      }
    }
    return Some((includeErrors, includeWarnings));
  }

  // ----- parsing

  /** The paths of `zed` URLs, in the order in which they are tried. */
  const THREAD := "/agent/thread/"
  const RULE := "/agent/rule/"
  const DIAGNOSTICS := "/agent/diagnostics"
  const PASTED_IMAGE := "/agent/pasted-image"
  const UNTITLED_BUFFER := "/agent/untitled-buffer"
  const SYMBOL := "/agent/symbol/"
  const FILE := "/agent/file"
  const DIRECTORY := "/agent/directory"
  const SELECTION := "/agent/selection"
  const TERMINAL_SELECTION := "/agent/terminal-selection"
  const GIT_DIFF := "/agent/git-diff"
  const MERGE_CONFLICT := "/agent/merge-conflict"

  const PATHS := [THREAD, RULE, DIAGNOSTICS, PASTED_IMAGE, UNTITLED_BUFFER, SYMBOL, FILE, DIRECTORY, SELECTION,
                  TERMINAL_SELECTION, GIT_DIFF, MERGE_CONFLICT]

  /** The path that is stored in a `file` URL. */
  function FilePath(codec: Codec, style: PathStyle, stored: string): string {
    codec.decode(if style.Windows? then TrimSlashes(stored) else stored)
  }

  function ParseFile(codec: Codec, style: PathStyle, input: Input): Option<Mention> {
    var url := input.url;
    var path := FilePath(codec, style, url.path);
    match url.fragment
    case Some(fragment) =>
      var r := if ParseLineRange(fragment).Some? then ParseLineRange(fragment).value else (1, 1);
      (match SingleQueryParam(url.query, "symbol")
       case Invalid => None
       case Found(name) => Some(Symbol(path, name, r.0, r.1))
       case Absent => Some(Selection(Some(path), r.0, r.1)))
    case None => Some(if input.endsInSlash then Directory(path) else File(path))
  }

  function WithParam(url: Url, name: string, default: Option<string>): Option<string> {
    match SingleQueryParam(url.query, name)
    case Invalid => None
    case Found(value) => Some(value)
    case Absent => default
  }

  function FragmentRange(url: Url): Option<(U32, U32)> {
    if url.fragment.Some? then ParseLineRange(url.fragment.value) else None
  }

  function ParseZed(codec: Codec, url: Url): Option<Mention> {
    var path := url.path;
    if StartsWith(path, THREAD) then
      var name := WithParam(url, "name", None);
      if name.Some? then Some(Thread(path[|THREAD|..], name.value)) else None
    else if StartsWith(path, RULE) then
      var name, uuid := WithParam(url, "name", None), codec.uuid(path[|RULE|..]);
      if name.Some? && uuid.Some? then Some(Rule(UserPrompt(uuid.value), name.value)) else None
    else if path == DIAGNOSTICS then
      var flags := DiagnosticsFlags(url.query, true, false);
      if flags.Some? then Some(Diagnostics(flags.value.0, flags.value.1)) else None
    else if StartsWith(path, PASTED_IMAGE) then
      var name := WithParam(url, "name", Some("Image"));
      if name.Some? then Some(PastedImage(name.value)) else None
    else if StartsWith(path, UNTITLED_BUFFER) then
      var r := FragmentRange(url);
      if r.Some? then Some(Selection(None, r.value.0, r.value.1)) else None
    else if StartsWith(path, SYMBOL) then
      var r, p := FragmentRange(url), WithParam(url, "path", None);
      if r.Some? && p.Some? then Some(Symbol(p.value, path[|SYMBOL|..], r.value.0, r.value.1)) else None
    else if StartsWith(path, FILE) then
      var p := WithParam(url, "path", None);
      if p.Some? then Some(File(p.value)) else None
    else if StartsWith(path, DIRECTORY) then
      var p := WithParam(url, "path", None);
      if p.Some? then Some(Directory(p.value)) else None
    else if StartsWith(path, SELECTION) then
      var r, p := FragmentRange(url), WithParam(url, "path", None);
      if r.Some? && p.Some? then Some(Selection(Some(p.value), r.value.0, r.value.1)) else None
    else if StartsWith(path, TERMINAL_SELECTION) then
      var lines := WithParam(url, "lines", Some("0"));
      if lines.Some? then Some(TerminalSelection(match ParseU32(lines.value) case Some(n) => n case None => 0)) else None
    else if StartsWith(path, GIT_DIFF) then
      var base := WithParam(url, "base", Some("main"));
      if base.Some? then Some(GitDiff(base.value)) else None
    else if StartsWith(path, MERGE_CONFLICT) then
      var p := WithParam(url, "path", Some(""));
      if p.Some? then Some(MergeConflict(p.value)) else None
    else None
  }

  function Parse(codec: Codec, style: PathStyle, input: Input): Option<Mention> {
    if input.url.scheme == "file" then ParseFile(codec, style, input)
    else if input.url.scheme == "zed" then ParseZed(codec, input.url)
    else if input.url.scheme == "http" || input.url.scheme == "https" then Some(Fetch(input.url))
    else None
  }

  // ----- the order of the branches

  predicate Matches(path: string, k: nat)
    requires k < |PATHS|
  {
    if k == 2 then path == DIAGNOSTICS else StartsWith(path, PATHS[k])
  }

  /** What tells the paths apart: three characters. */
  function Mark(path: string): string
    requires |path| >= 10
  {
    [path[7], path[8], path[9]]
  }

  lemma MatchesMark(path: string, k: nat)
    requires k < |PATHS| && Matches(path, k)
    ensures |path| >= 10 && Mark(path) == Mark(PATHS[k])
  {
    assert |PATHS[k]| >= 10;
    assert path[..|PATHS[k]|] == PATHS[k] || path == DIAGNOSTICS;
  }

  lemma MarksDiffer(j: nat, k: nat)
    requires j < k < |PATHS|
    ensures Mark(PATHS[j]) != Mark(PATHS[k])
  {
  }

  /** No path is of two kinds, so the order in which the kinds are tried does not matter. */
  lemma BranchesAreExclusive(path: string, j: nat, k: nat)
    requires j < |PATHS| && k < |PATHS| && Matches(path, j) && Matches(path, k)
    ensures j == k
  {
    hide Mark;
    MatchesMark(path, j);
    MatchesMark(path, k);
    if j < k {
      MarksDiffer(j, k);
    } else if k < j {
      MarksDiffer(k, j);
    }
  }

  // ----- printing

  const NO_FILE := Url("file", "", "/", [], None)
  const NO_PAGE := Url("zed", "", "/", [], None)

  function PromptText(p: PromptId): string {
    match p
    case UserPrompt(uuid) => uuid
    case BuiltIn(title) => title
  }

  function DirectoryText(absPath: string): string {
    if absPath != "" && absPath[|absPath| - 1] in {'/', '\\'} then absPath else absPath + "/"
  }

  function DiagnosticsQuery(errors: bool, warnings: bool): seq<(string, string)> {
    (if warnings then [("include_warnings", "true")] else []) + (if errors then [] else [("include_errors", "false")])
  }

  function ToUri(codec: Codec, m: Mention): Url {
    match m
    case File(p) => NO_FILE.(path := codec.encode(p))
    case PastedImage(name) => NO_PAGE.(path := PASTED_IMAGE, query := [("name", name)])
    case Directory(p) => NO_FILE.(path := codec.encode(DirectoryText(p)))
    case Symbol(p, name, first, last) =>
      NO_FILE.(path := codec.encode(p), query := [("symbol", name)], fragment := Some(PrintLineRange(first, last)))
    case Selection(Some(p), first, last) => NO_FILE.(path := codec.encode(p), fragment := Some(PrintLineRange(first, last)))
    case Selection(None, first, last) =>
      NO_PAGE.(path := codec.encode(UNTITLED_BUFFER), fragment := Some(PrintLineRange(first, last)))
    case Thread(id, name) => NO_PAGE.(path := codec.encode(THREAD + id), query := [("name", name)])
    case Rule(prompt, name) => NO_PAGE.(path := codec.encode(RULE + PromptText(prompt)), query := [("name", name)])
    case Diagnostics(errors, warnings) =>
      NO_PAGE.(path := codec.encode(DIAGNOSTICS), query := DiagnosticsQuery(errors, warnings))
    case Fetch(url) => url
    case TerminalSelection(n) => NO_PAGE.(path := TERMINAL_SELECTION, query := [("lines", Decimal(n))])
    case GitDiff(base) => NO_PAGE.(path := GIT_DIFF, query := [("base", base)])
    case MergeConflict(p) => NO_PAGE.(path := MERGE_CONFLICT, query := [("path", p)])
  }

  function SetPath(codec: Codec, url: Url, path: string): Url {
    url.(path := codec.encode(path))
  }

  function AppendPair(url: Url, name: string, value: string): Url {
    url.(query := url.query + [(name, value)])
  }

  function SetLineRange(url: Url, first: U32, last: U32): Url {
    url.(fragment := Some(PrintLineRange(first, last)))
  }

  /** Builds the URL of a mention part by part. */
  method BuildUri(codec: Codec, m: Mention) returns (url: Url)
    ensures url == ToUri(codec, m)
  {
    hide PrintLineRange, Decimal;
    match m {
      case File(absPath) =>
        url := SetPath(codec, NO_FILE, absPath);
      case PastedImage(name) =>
        url := AppendPair(NO_PAGE.(path := PASTED_IMAGE), "name", name);
      case Directory(absPath) =>
        var path := absPath;
        if path == "" || path[|path| - 1] !in {'/', '\\'} {
          path := path + "/";
        }
        url := SetPath(codec, NO_FILE, path);
      case Symbol(absPath, name, first, last) =>
        url := SetPath(codec, NO_FILE, absPath);
        url := AppendPair(url, "symbol", name);
        url := SetLineRange(url, first, last);
      case Selection(absPath, first, last) =>
        if absPath.Some? {
          url := SetPath(codec, NO_FILE, absPath.value);
        } else {
          url := SetPath(codec, NO_PAGE, UNTITLED_BUFFER);
        }
        url := SetLineRange(url, first, last);
      case Thread(id, name) =>
        url := SetPath(codec, NO_PAGE, THREAD + id);
        url := AppendPair(url, "name", name);
      case Rule(prompt, name) =>
        url := SetPath(codec, NO_PAGE, RULE + PromptText(prompt));
        url := AppendPair(url, "name", name);
      case Diagnostics(includeErrors, includeWarnings) =>
        url := SetPath(codec, NO_PAGE, DIAGNOSTICS);
        if includeWarnings {
          url := AppendPair(url, "include_warnings", "true");
        }
        if !includeErrors {
          url := AppendPair(url, "include_errors", "false");
        }
      case Fetch(fetched) =>
        url := fetched;
      case TerminalSelection(lineCount) =>
        url := AppendPair(NO_PAGE.(path := TERMINAL_SELECTION), "lines", Decimal(lineCount));
      case GitDiff(baseRef) =>
        url := AppendPair(NO_PAGE.(path := GIT_DIFF), "base", baseRef);
      case MergeConflict(filePath) =>
        url := AppendPair(NO_PAGE.(path := MERGE_CONFLICT), "path", filePath);
    }
  }

  /** A URL printed and read back. The text of a query ends in no slash, since printing encodes it. */
  function Printed(url: Url): Input {
    Input(url, url.fragment.None? && url.query == [] && EndsInSlash(url.path))
  }

  // ----- round trips

  /** Plain paths are stored as they are. */
  predicate KeepsPlainPaths(codec: Codec) {
    codec.encode(DIAGNOSTICS) == DIAGNOSTICS && codec.encode(UNTITLED_BUFFER) == UNTITLED_BUFFER
  }

  /** The path survives being stored. */
  predicate Survives(codec: Codec, style: PathStyle, p: string) {
    FilePath(codec, style, codec.encode(p)) == p
  }

  /** How the path of a directory is stored: with a slash at its end. */
  function DirectoryPath(codec: Codec, p: string): string {
    codec.encode(DirectoryText(p))
  }

  /** The mentions that printing and parsing preserves, as far as can be told from their parts. */
  predicate IsCanonical(codec: Codec, style: PathStyle, m: Mention) {
    match m
    case File(p) => Survives(codec, style, p) && !EndsInSlash(codec.encode(p))
    case Directory(p) => FilePath(codec, style, DirectoryPath(codec, p)) == p && EndsInSlash(DirectoryPath(codec, p))
    case Symbol(p, _, first, last) => Survives(codec, style, p) && first < LAST_LINE && last < LAST_LINE
    case Selection(Some(p), first, last) => Survives(codec, style, p) && first < LAST_LINE && last < LAST_LINE
    case Selection(None, first, last) => first < LAST_LINE && last < LAST_LINE
    case Thread(id, _) => codec.encode(THREAD + id) == THREAD + id
    case Rule(UserPrompt(uuid), _) => codec.uuid(uuid) == Some(uuid)
    case Rule(BuiltIn(_), _) => false
    case Fetch(url) => url.scheme == "http" || url.scheme == "https"
    case _ => true
  }

  lemma FileRoundTrip(codec: Codec, style: PathStyle, m: Mention)
    requires m.File? || m.Symbol? || (m.Selection? && m.path.Some?)
    ensures Parse(codec, style, Printed(ToUri(codec, m))) == Some(m) <==> IsCanonical(codec, style, m)
  {
    hide PrintLineRange, ParseLineRange;
    if !m.File? {
      PrintedLineRange(m.first, m.last);
    }
  }

  /** The first trip gives a directory the path that is read from what was stored with its slash, and makes it a file if the
      slash is lost. Where the path with its slash survives, that is the path, and every further trip keeps it. */
  lemma DirectoriesSettle(codec: Codec, style: PathStyle, p: string)
    ensures var stored := DirectoryPath(codec, p);
      var read := FilePath(codec, style, stored);
      && Parse(codec, style, Printed(ToUri(codec, Directory(p)))) == Some(if EndsInSlash(stored) then Directory(read) else File(read))
      && (EndsInSlash(stored) && Survives(codec, style, DirectoryText(p)) ==>
            && read == DirectoryText(p) && IsCanonical(codec, style, Directory(read))
            && Parse(codec, style, Printed(ToUri(codec, Directory(read)))) == Some(Directory(read)))
  {
  }

  /** A directory round-trips exactly if it is read back from what is stored with its slash, as a directory. */
  lemma DirectoryRoundTrip(codec: Codec, style: PathStyle, p: string)
    ensures Parse(codec, style, Printed(ToUri(codec, Directory(p)))) == Some(Directory(p)) <==> IsCanonical(codec, style, Directory(p))
    ensures Survives(codec, style, DirectoryText(p)) ==>
      (IsCanonical(codec, style, Directory(p)) <==> DirectoryText(p) == p && EndsInSlash(codec.encode(p)))
  {
    DirectoriesSettle(codec, style, p);
  }

  /** All four combinations of the flags are read back, although the defaults are not printed. */
  lemma FlagsRoundTrip(errors: bool, warnings: bool)
    ensures DiagnosticsFlags(DiagnosticsQuery(errors, warnings), true, false) == Some((errors, warnings))
  {
    var w: (string, string), e: (string, string) := ("include_warnings", "true"), ("include_errors", "false");
    assert |w.0| != |e.0| && |e.1| != |w.1|;
    var q := DiagnosticsQuery(errors, warnings);
    if warnings && !errors {
      assert q == [w, e] && q[1..] == [e];
      assert DiagnosticsFlags(q, true, false) == DiagnosticsFlags([e], true, true);
      assert [e][1..] == [] && DiagnosticsFlags([], false, true) == Some((false, true));
    } else if warnings {
      assert q == [w] && q[1..] == [];
    } else if !errors {
      assert q == [e] && q[1..] == [];
    }
  }

  lemma DiagnosticsRoundTrip(codec: Codec, style: PathStyle, errors: bool, warnings: bool)
    requires KeepsPlainPaths(codec)
    ensures Parse(codec, style, Printed(ToUri(codec, Diagnostics(errors, warnings)))) == Some(Diagnostics(errors, warnings))
  {
    hide DiagnosticsFlags, DiagnosticsQuery;
    FlagsRoundTrip(errors, warnings);
    NotTried(DIAGNOSTICS, 2);
  }

  /** Which branch is taken for the path of kind `k`. */
  lemma TakesBranch(path: string, k: nat)
    requires k < |PATHS| && Matches(path, k)
    ensures forall j | 0 <= j < |PATHS| && j != k :: !Matches(path, j)
  {
    forall j | 0 <= j < |PATHS| && j != k ensures !Matches(path, j) {
      if Matches(path, j) {
        BranchesAreExclusive(path, j, k);
      }
    }
  }

  lemma NotTried(path: string, k: nat)
    requires k < |PATHS| && Matches(path, k)
    ensures k > 0 ==> !StartsWith(path, THREAD)
    ensures k > 1 ==> !StartsWith(path, RULE)
    ensures k > 2 ==> path != DIAGNOSTICS
    ensures k > 3 ==> !StartsWith(path, PASTED_IMAGE)
    ensures k > 4 ==> !StartsWith(path, UNTITLED_BUFFER)
    ensures k > 5 ==> !StartsWith(path, SYMBOL)
    ensures k > 6 ==> !StartsWith(path, FILE)
    ensures k > 7 ==> !StartsWith(path, DIRECTORY)
    ensures k > 8 ==> !StartsWith(path, SYMBOL) && !StartsWith(path, FILE) && !StartsWith(path, DIRECTORY) && !StartsWith(path, SELECTION)
    ensures k > 9 ==> !StartsWith(path, TERMINAL_SELECTION)
    ensures k > 10 ==> !StartsWith(path, GIT_DIFF)
  {
    hide StartsWith;
    TakesBranch(path, k);
    assert PATHS[0] == THREAD && PATHS[1] == RULE && PATHS[3] == PASTED_IMAGE && PATHS[4] == UNTITLED_BUFFER;
    assert PATHS[5] == SYMBOL && PATHS[6] == FILE && PATHS[7] == DIRECTORY && PATHS[8] == SELECTION;
    assert PATHS[9] == TERMINAL_SELECTION && PATHS[10] == GIT_DIFF;
    assert forall j | 0 <= j < k :: !Matches(path, j);
    assert k > 0 ==> !Matches(path, 0);
    assert k > 1 ==> !Matches(path, 1);
    assert k > 2 ==> !Matches(path, 2);
    assert k > 3 ==> !Matches(path, 3);
    assert k > 4 ==> !Matches(path, 4);
    assert k > 5 ==> !Matches(path, 5);
    assert k > 6 ==> !Matches(path, 6);
    assert k > 7 ==> !Matches(path, 7);
    assert k > 8 ==> !Matches(path, 5) && !Matches(path, 6) && !Matches(path, 7) && !Matches(path, 8);
    assert k > 9 ==> !Matches(path, 9);
    assert k > 10 ==> !Matches(path, 10);
  }

  lemma PageRoundTrip(codec: Codec, style: PathStyle, m: Mention)
    requires m.PastedImage? || m.TerminalSelection? || m.GitDiff? || m.MergeConflict? || (m.Selection? && m.path.None?)
    requires KeepsPlainPaths(codec)
    ensures Parse(codec, style, Printed(ToUri(codec, m))) == Some(m) <==> IsCanonical(codec, style, m)
  {
    hide PrintLineRange, ParseLineRange, Decimal, ParseU32;
    match m
    case PastedImage(_) => NotTried(PASTED_IMAGE, 3);
    case Selection(_, first, last) =>
      NotTried(UNTITLED_BUFFER, 4);
      PrintedLineRange(first, last);
    case TerminalSelection(n) =>
      NotTried(TERMINAL_SELECTION, 9);
      ParsesDecimal(n);
    case GitDiff(_) => NotTried(GIT_DIFF, 10);
    case MergeConflict(_) => NotTried(MERGE_CONFLICT, 11);
  }

  /** The query is the path alone. */
  predicate IsPathQuery(query: seq<(string, string)>) {
    |query| == 1 && query[0].0 == "path"
  }

  /** Pages that name a path in their query, which are read but never printed. A file or a directory is read exactly if the
      query is the path alone, whatever else follows in the URL; a symbol or a selection only with lines that do not wrap
      around. The name of the symbol is the rest of its page. */
  lemma PathPagesParse(codec: Codec, style: PathStyle, input: Input, rest: string, first: U32, last: U32)
    requires input.url.scheme == "zed"
    ensures var url, m := input.url, Parse(codec, style, input);
      && (url.path == FILE + rest ==> m == if IsPathQuery(url.query) then Some(File(url.query[0].1)) else None)
      && (url.path == DIRECTORY + rest ==> m == if IsPathQuery(url.query) then Some(Directory(url.query[0].1)) else None)
      && (url.path == SYMBOL + rest && url.fragment == Some(PrintLineRange(first, last)) ==>
            m == if IsPathQuery(url.query) && first < LAST_LINE && last < LAST_LINE
                 then Some(Symbol(url.query[0].1, rest, first, last)) else None)
      && (url.path == SELECTION + rest && url.fragment == Some(PrintLineRange(first, last)) ==>
            m == if IsPathQuery(url.query) && first < LAST_LINE && last < LAST_LINE
                 then Some(Selection(Some(url.query[0].1), first, last)) else None)
      && (url.path in {SYMBOL + rest, SELECTION + rest} && url.fragment.None? ==> m == None)
  {
    hide PrintLineRange, ParseLineRange, Decimal, ParseU32, DiagnosticsFlags, ParseZed;
    PrintedLineRange(first, last);
    PagesDiffer(rest);
    var path := input.url.path;
    if path == FILE + rest {
      FilePage(codec, input.url, rest);
    } else if path == DIRECTORY + rest {
      DirectoryPage(codec, input.url, rest);
    } else if path == SYMBOL + rest {
      SymbolPage(codec, input.url, rest);
    } else if path == SELECTION + rest {
      SelectionPage(codec, input.url, rest);
    }
  }

  lemma PagesDiffer(rest: string)
    ensures FILE + rest != DIRECTORY + rest && FILE + rest != SYMBOL + rest && FILE + rest != SELECTION + rest
    ensures DIRECTORY + rest != SYMBOL + rest && DIRECTORY + rest != SELECTION + rest && SYMBOL + rest != SELECTION + rest
  {
    assert (FILE + rest)[7] == 'f' && (DIRECTORY + rest)[7] == 'd';
    assert (SYMBOL + rest)[7] == 's' && (SYMBOL + rest)[8] == 'y' && (SELECTION + rest)[7] == 's' && (SELECTION + rest)[8] == 'e';
  }

  lemma FilePage(codec: Codec, url: Url, rest: string)
    requires url.path == FILE + rest
    ensures ParseZed(codec, url) == if IsPathQuery(url.query) then Some(File(url.query[0].1)) else None
  {
    hide ParseLineRange, ParseU32, DiagnosticsFlags;
    NotTried(url.path, 6);
  }

  lemma DirectoryPage(codec: Codec, url: Url, rest: string)
    requires url.path == DIRECTORY + rest
    ensures ParseZed(codec, url) == if IsPathQuery(url.query) then Some(Directory(url.query[0].1)) else None
  {
    hide ParseLineRange, ParseU32, DiagnosticsFlags;
    NotTried(url.path, 7);
  }

  lemma SymbolPage(codec: Codec, url: Url, rest: string)
    requires url.path == SYMBOL + rest
    ensures var r := FragmentRange(url);
      ParseZed(codec, url) == if IsPathQuery(url.query) && r.Some? then Some(Symbol(url.query[0].1, rest, r.value.0, r.value.1)) else None
  {
    hide ParseLineRange, ParseU32, DiagnosticsFlags;
    NotTried(url.path, 5);
    assert url.path[|SYMBOL|..] == rest;
  }

  lemma SelectionPage(codec: Codec, url: Url, rest: string)
    requires url.path == SELECTION + rest
    ensures var r := FragmentRange(url);
      ParseZed(codec, url) == if IsPathQuery(url.query) && r.Some? then Some(Selection(Some(url.query[0].1), r.value.0, r.value.1)) else None
  {
    hide ParseLineRange, ParseU32, DiagnosticsFlags;
    NotTried(url.path, 8);
  }

  /** What is read where a page leaves its parameter out, or a file's lines cannot be read. */
  lemma DefaultsAreRead(codec: Codec, style: PathStyle, input: Input, rest: string)
    requires input.url.scheme == "zed" && input.url.query == []
    ensures var path, m := input.url.path, Parse(codec, style, input);
      && (path == PASTED_IMAGE + rest ==> m == Some(PastedImage("Image")))
      && (path == TERMINAL_SELECTION + rest ==> m == Some(TerminalSelection(0)))
      && (path == GIT_DIFF + rest ==> m == Some(GitDiff("main")))
      && (path == MERGE_CONFLICT + rest ==> m == Some(MergeConflict("")))
      && (StartsWith(path, THREAD) || StartsWith(path, RULE) ==> m == None)
  {
    hide ParseLineRange, DiagnosticsFlags;
    var path := input.url.path;
    if path == PASTED_IMAGE + rest {
      NotTried(path, 3);
    } else if path == TERMINAL_SELECTION + rest {
      NotTried(path, 9);
      ParsesDecimal(0);
      assert Decimal(0) == "0";
    } else if path == GIT_DIFF + rest {
      NotTried(path, 10);
    } else if path == MERGE_CONFLICT + rest {
      NotTried(path, 11);
    } else if StartsWith(path, RULE) {
      NotTried(path, 1);
    }
  }

  /** A file whose fragment is no range of lines is read with the second line; one with another parameter, or more, is not. */
  lemma UnreadableLines(codec: Codec, style: PathStyle, input: Input, fragment: string, name: string)
    requires input.url.scheme == "file" && input.url.fragment == Some(fragment) && ParseLineRange(fragment) == None
    ensures var path, query, m := FilePath(codec, style, input.url.path), input.url.query, Parse(codec, style, input);
      && (query == [] ==> m == Some(Selection(Some(path), 1, 1)))
      && (query == [("symbol", name)] ==> m == Some(Symbol(path, name, 1, 1)))
      && (query != [] && (|query| > 1 || query[0].0 != "symbol") ==> m == None)
  {
    hide ParseLineRange;
  }

  /** The id of a user's rule consists of plain characters. */
  predicate KeepsRuleId(codec: Codec, m: Mention) {
    m.Rule? && m.prompt.UserPrompt? ==> codec.encode(RULE + m.prompt.uuid) == RULE + m.prompt.uuid
  }

  /** A thread round-trips exactly if its id is stored as it is, a rule exactly if it is the user's. */
  lemma IdRoundTrip(codec: Codec, style: PathStyle, m: Mention)
    requires (m.Thread? || m.Rule?) && KeepsRuleId(codec, m)
    ensures Parse(codec, style, Printed(ToUri(codec, m))) == Some(m) <==> IsCanonical(codec, style, m)
  {
    hide ParseLineRange, DiagnosticsFlags, ParseU32;
    match m
    case Thread(id, _) =>
      var path := codec.encode(THREAD + id);
      if StartsWith(path, THREAD) {
        assert path == THREAD + path[|THREAD|..];
      } else {
        assert !(path == THREAD + id);
      }
      assert (THREAD + id)[|THREAD|..] == id;
    case Rule(prompt, _) =>
      var path := codec.encode(RULE + PromptText(prompt));
      if StartsWith(path, RULE) {
        NotTried(path, 1);
      }
      assert (RULE + PromptText(prompt))[|RULE|..] == PromptText(prompt);
  }

  lemma FetchRoundTrip(codec: Codec, style: PathStyle, url: Url)
    ensures Parse(codec, style, Printed(ToUri(codec, Fetch(url)))) == Some(Fetch(url)) <==> IsCanonical(codec, style, Fetch(url))
  {
    hide ParseLineRange, DiagnosticsFlags, ParseU32, SingleQueryParam;
  }

  /** Printing a mention and parsing it gives the mention back exactly if it is canonical. */
  lemma RoundTrip(codec: Codec, style: PathStyle, m: Mention)
    requires KeepsPlainPaths(codec) && KeepsRuleId(codec, m)
    ensures Parse(codec, style, Printed(ToUri(codec, m))) == Some(m) <==> IsCanonical(codec, style, m)
  {
    hide ParseZed, ParseFile;
    match m
    case File(_) => FileRoundTrip(codec, style, m);
    case Symbol(_, _, _, _) => FileRoundTrip(codec, style, m);
    case Directory(p) => DirectoryRoundTrip(codec, style, p);
    case Selection(path, _, _) =>
      if path.Some? {
        FileRoundTrip(codec, style, m);
      } else {
        PageRoundTrip(codec, style, m);
      }
    case Thread(_, _) => IdRoundTrip(codec, style, m);
    case Rule(_, _) => IdRoundTrip(codec, style, m);
    case Diagnostics(errors, warnings) => DiagnosticsRoundTrip(codec, style, errors, warnings);
    case Fetch(url) => FetchRoundTrip(codec, style, url);
    case _ => PageRoundTrip(codec, style, m);
  }
}
