/** Text as the two programs see it: sequences of Unicode code points, with Go's and
    JavaScript's own notions of white space, ASCII case folding, splitting and searching. */
module Text {

  datatype Option<+T> = None | Some(value: T)

  /** A value, or the text of the complaint the program stops with. */
  datatype Result<+T> = Ok(value: T) | Err(complaint: string)

  // ---------- trimming ----------

  predicate WideSpace(c: char) {
    c == '\U{a0}' || c == '\U{1680}' || '\U{2000}' <= c <= '\U{200a}' || c == '\U{2028}' || c == '\U{2029}' ||
    c == '\U{202f}' || c == '\U{205f}' || c == '\U{3000}'
  }

  function TrimLeft(s: string, cut: Cutset): string {
    if s != "" && Cuts(cut, s[0]) then TrimLeft(s[1..], cut) else s
  }

  function TrimRight(s: string, cut: Cutset): string {
    if s != "" && Cuts(cut, s[|s| - 1]) then TrimRight(s[..|s| - 1], cut) else s
  }

  function Trim(s: string, cut: Cutset): string {
    TrimRight(TrimLeft(s, cut), cut)
  }

  /** The four sets of characters the programs cut from the ends of a text. */
  datatype Cutset =
    | GoSpace       // strings.TrimSpace
    | JsSpace       // String.prototype.trim
    | Blanks        // strings.TrimLeft(_, " \t")
    | DotsAndBlanks // strings.Trim(_, ". \t")

  predicate Cuts(cut: Cutset, c: char) {
    match cut
    case GoSpace => '\t' <= c <= '\r' || c == ' ' || c == '\U{85}' || WideSpace(c)
    case JsSpace => '\t' <= c <= '\r' || c == ' ' || c == '\U{feff}' || WideSpace(c)
    case Blanks => c == ' ' || c == '\t'
    case DotsAndBlanks => c == '.' || c == ' ' || c == '\t'
  }

  predicate Trimmed(s: string, cut: Cutset) {
    s == "" || (!Cuts(cut, s[0]) && !Cuts(cut, s[|s| - 1]))
  }

  lemma {:induction false} TrimLeftFacts(s: string, cut: Cutset)
    ensures var r := TrimLeft(s, cut);
      && |r| <= |s| && r == s[|s| - |r|..]
      && (r == "" || !Cuts(cut, r[0]))
      && (forall i :: 0 <= i < |s| - |r| ==> Cuts(cut, s[i]))
  {
    if s == "" || !Cuts(cut, s[0]) {
    } else {
      TrimLeftFacts(s[1..], cut);
    }
  }

  lemma {:induction false} TrimRightFacts(s: string, cut: Cutset)
    ensures var r := TrimRight(s, cut);
      && |r| <= |s| && r == s[..|r|]
      && (r == "" || !Cuts(cut, r[|r| - 1]))
      && (forall i :: |r| <= i < |s| ==> Cuts(cut, s[i]))
  {
    if s == "" || !Cuts(cut, s[|s| - 1]) {
    } else {
      TrimRightFacts(s[..|s| - 1], cut);
    }
  }

  /** Cutting from both ends leaves a trimmed piece of the text, and nothing exactly when
      every character belongs to the cut set. */
  lemma TrimFacts(s: string, cut: Cutset)
    ensures Trimmed(Trim(s, cut), cut)
    ensures forall c <- Trim(s, cut) :: c in s
    ensures Trim(s, cut) == "" <==> forall c <- s :: Cuts(cut, c)
  {
    var left := TrimLeft(s, cut);
    TrimLeftFacts(s, cut);
    TrimRightFacts(left, cut);
    var r := Trim(s, cut);
    if left != "" {
      assert left[0] == s[|s| - |left|];
      assert r != "" && r[0] == left[0];
      assert s[|s| - |left|] in s;
    }
  }

  /** A trimmed text is left alone. */
  lemma TrimTrimmed(s: string, cut: Cutset)
    requires Trimmed(s, cut)
    ensures Trim(s, cut) == s && TrimLeft(s, cut) == s && TrimRight(s, cut) == s
  {
  }

  // ---------- ASCII case folding ----------

  function LowerChar(c: char): char {
    if 'A' <= c <= 'Z' then (c as int + 32) as char else c
  }

  function UpperChar(c: char): char {
    if 'a' <= c <= 'z' then (c as int - 32) as char else c
  }

  function Lower(s: string): string {
    if s == "" then "" else [LowerChar(s[0])] + Lower(s[1..])
  }

  function Upper(s: string): string {
    if s == "" then "" else [UpperChar(s[0])] + Upper(s[1..])
  }

  predicate IsLower(s: string) {
    forall c <- s :: !('A' <= c <= 'Z')
  }

  lemma {:induction false} LowerAt(s: string)
    ensures |Lower(s)| == |s| && forall i :: 0 <= i < |s| ==> Lower(s)[i] == LowerChar(s[i])
  {
    if s == "" {
    } else {
      LowerAt(s[1..]);
    }
  }

  lemma {:induction false} LowerLower(s: string)
    requires IsLower(s)
    ensures Lower(s) == s
  {
    if s == "" {
    } else {
      assert s[0] in s && forall c <- s[1..] :: c in s;
      LowerLower(s[1..]);
    }
  }

  /** Folding is idempotent and does not touch white space, so it commutes with trimming. */
  lemma LowerFacts(s: string, cut: Cutset)
    ensures IsLower(Lower(s))
    ensures Lower(Lower(s)) == Lower(s)
    ensures Trimmed(s, cut) <==> Trimmed(Lower(s), cut)
  {
    LowerAt(s);
    LowerLower(Lower(s));
  }

  // ---------- searching ----------

  /** The first position of a pattern, or -1. */
  function IndexOf(s: string, pattern: string): (r: int)
    ensures -1 <= r <= |s| - |pattern| || r == -1
    ensures r >= 0 ==> pattern <= s[r..]
    ensures forall i :: 0 <= i <= |s| && (r < 0 || i < r) ==> !(pattern <= s[i..])
  {
    if pattern <= s then
      assert s[0..] == s;
      0
    else if s == "" then -1
    else
      var t := IndexOf(s[1..], pattern);
      assert s[0..] == s;
      assert forall i :: 1 <= i <= |s| ==> s[i..] == s[1..][i - 1..];
      if t < 0 then -1 else t + 1
  }

  predicate Contains(s: string, pattern: string) {
    IndexOf(s, pattern) >= 0
  }

  function LastIndexFrom(s: string, pattern: string, from: nat): (r: int)
    requires from <= |s|
    ensures -1 <= r <= from
    ensures r >= 0 ==> pattern <= s[r..]
    ensures forall i :: 0 <= i <= from && r < i ==> !(pattern <= s[i..])
  {
    if pattern <= s[from..] then from
    else if from == 0 then -1
    else LastIndexFrom(s, pattern, from - 1)
  }

  /** The last position of a pattern, or -1. */
  function LastIndexOf(s: string, pattern: string): (r: int)
    ensures -1 <= r <= |s|
    ensures r >= 0 ==> pattern <= s[r..]
    ensures forall i :: 0 <= i <= |s| && r < i ==> !(pattern <= s[i..])
  {
    LastIndexFrom(s, pattern, |s|)
  }

  // ---------- splitting and joining ----------

  /** Cutting a text at every occurrence of a separator. */
  function Split(s: string, sep: char): (r: seq<string>)
    ensures |r| >= 1
    ensures forall p <- r :: sep !in p
  {
    if s == "" then [""]
    else
      var rest := Split(s[1..], sep);
      if s[0] == sep then [""] + rest else [[s[0]] + rest[0]] + rest[1..]
  }

  function Join(parts: seq<string>, sep: char): string {
    if parts == [] then ""
    else if |parts| == 1 then parts[0]
    else parts[0] + [sep] + Join(parts[1..], sep)
  }

  lemma {:induction false} SplitNone(s: string, sep: char)
    requires sep !in s
    ensures Split(s, sep) == [s]
  {
    if s == "" {
    } else {
      SplitNone(s[1..], sep);
      assert [s[0]] + s[1..] == s;
    }
  }

  lemma {:induction false} SplitAt(a: string, b: string, sep: char)
    requires sep !in a
    ensures Split(a + [sep] + b, sep) == [a] + Split(b, sep)
  {
    var s := a + [sep] + b;
    if a == "" {
      assert s[1..] == b;
    } else {
      assert s[1..] == a[1..] + [sep] + b;
      SplitAt(a[1..], b, sep);
      assert [a[0]] + a[1..] == a;
    }
  }

  /** Splitting undoes joining, for pieces free of the separator. */
  lemma {:induction false} SplitJoin(parts: seq<string>, sep: char)
    requires parts != []
    requires forall p <- parts :: sep !in p
    ensures Split(Join(parts, sep), sep) == parts
  {
    assert parts[0] in parts;
    if |parts| == 1 {
      SplitNone(parts[0], sep);
    } else {
      SplitJoin(parts[1..], sep);
      SplitAt(parts[0], Join(parts[1..], sep), sep);
    }
  }

  /** Joining undoes splitting, for every text. */
  lemma {:induction false} JoinSplit(s: string, sep: char)
    ensures Join(Split(s, sep), sep) == s
  {
    if s == "" {
    } else {
      JoinSplit(s[1..], sep);
      var rest := Split(s[1..], sep);
      if s[0] == sep {
        assert (([""] + rest)[1..]) == rest;
      } else {
        var r := [[s[0]] + rest[0]] + rest[1..];
        if |rest| > 1 {
          assert r[1..] == rest[1..];
        }
      }
    }
  }

  // ---------- lines ----------

  /** Newline-terminated lines, as fmt.Printf and the report's string builder write them. */
  function Unlines(lines: seq<string>): string {
    if lines == [] then "" else lines[0] + "\n" + Unlines(lines[1..])
  }

  function DropCR(line: string): string {
    if line != "" && line[|line| - 1] == '\r' then line[..|line| - 1] else line
  }

  function DropCRs(lines: seq<string>): (r: seq<string>)
    ensures |r| == |lines| && forall i :: 0 <= i < |lines| ==> r[i] == DropCR(lines[i])
  {
    seq(|lines|, i requires 0 <= i < |lines| => DropCR(lines[i]))
  }

  /** bufio.ScanLines: a last piece that is empty is no line. */
  function ScanLines(text: string): seq<string> {
    var pieces := Split(text, '\n');
    var last := |pieces| - 1;
    DropCRs(if pieces[last] == "" then pieces[..last] else pieces)
  }

  /** text.split(/\r?\n/): a carriage return goes only when a newline follows it. */
  function JsLines(text: string): seq<string> {
    var pieces := Split(text, '\n');
    var last := |pieces| - 1;
    DropCRs(pieces[..last]) + [pieces[last]]
  }

  predicate SingleLine(s: string) {
    '\n' !in s
  }

  lemma {:induction false} SplitUnlines(lines: seq<string>)
    requires forall l <- lines :: SingleLine(l)
    ensures Split(Unlines(lines), '\n') == lines + [""]
  {
    if lines == [] {
    } else {
      assert lines[0] in lines;
      SplitUnlines(lines[1..]);
      SplitAt(lines[0], Unlines(lines[1..]), '\n');
      assert lines[0] + "\n" + Unlines(lines[1..]) == lines[0] + ['\n'] + Unlines(lines[1..]);
    }
  }

  /** Both readers see the lines that were written, up to one trailing carriage return each. */
  lemma ReadLines(lines: seq<string>)
    requires forall l <- lines :: SingleLine(l)
    ensures ScanLines(Unlines(lines)) == DropCRs(lines)
    ensures JsLines(Unlines(lines)) == DropCRs(lines) + [""]
  {
    SplitUnlines(lines);
    assert (lines + [""])[..|lines|] == lines;
  }

  lemma {:induction false} UnlinesAppend(a: seq<string>, b: seq<string>)
    ensures Unlines(a + b) == Unlines(a) + Unlines(b)
  {
    if a == [] {
      assert a + b == b;
    } else {
      UnlinesAppend(a[1..], b);
      assert (a + b)[1..] == a[1..] + b;
    }
  }

  // ---------- comma-separated lists ----------

  /** Pieces trimmed, empty ones dropped: splitList in Go, split/map/filter in JavaScript. */
  function Pieces(parts: seq<string>, cut: Cutset): seq<string> {
    if parts == [] then []
    else
      var p := Trim(parts[0], cut);
      (if p == "" then [] else [p]) + Pieces(parts[1..], cut)
  }

  function SplitList(s: string, cut: Cutset): seq<string> {
    Pieces(Split(s, ','), cut)
  }

  lemma {:induction false} PiecesFacts(parts: seq<string>, cut: Cutset)
    ensures forall p <- Pieces(parts, cut) :: p != "" && Trimmed(p, cut)
    ensures (forall p <- parts :: ',' !in p) ==> forall p <- Pieces(parts, cut) :: ',' !in p
  {
    if parts == [] {
    } else {
      assert parts[0] in parts && forall p <- parts[1..] :: p in parts;
      TrimFacts(parts[0], cut);
      PiecesFacts(parts[1..], cut);
    }
  }

  lemma {:induction false} PiecesClean(parts: seq<string>, cut: Cutset)
    requires forall p <- parts :: p != "" && Trimmed(p, cut)
    ensures Pieces(parts, cut) == parts
  {
    if parts == [] {
    } else {
      assert parts[0] in parts && forall p <- parts[1..] :: p in parts;
      TrimTrimmed(parts[0], cut);
      PiecesClean(parts[1..], cut);
    }
  }

  lemma {:induction false} JoinEnds(parts: seq<string>, sep: char)
    requires parts != [] && forall i :: 0 <= i < |parts| ==> parts[i] != ""
    ensures var s, last := Join(parts, sep), parts[|parts| - 1];
      s != "" && s[0] == parts[0][0] && s[|s| - 1] == last[|last| - 1]
  {
    if |parts| <= 1 {
    } else {
      var rest := parts[1..];
      JoinEnds(rest, sep);
      var s := parts[0] + [sep] + Join(rest, sep);
      assert s[|s| - 1] == Join(rest, sep)[|Join(rest, sep)| - 1];
    }
  }

  /** Trimmed non-empty items without commas survive being joined and split again. */
  lemma SplitListJoin(parts: seq<string>, cut: Cutset)
    requires parts != [] && forall p <- parts :: p != "" && Trimmed(p, cut) && ',' !in p
    ensures SplitList(Join(parts, ','), cut) == parts
    ensures Join(parts, ',') != "" && Trimmed(Join(parts, ','), cut)
  {
    SplitJoin(parts, ',');
    PiecesClean(parts, cut);
    assert forall i :: 0 <= i < |parts| ==> parts[i] in parts;
    JoinEnds(parts, ',');
  }

  /** The two halves around the first separator (strings.SplitN with limit 2). */
  function CutAt(s: string, sep: char): Option<(string, string)> {
    if s == "" then None
    else if s[0] == sep then Some(("", s[1..]))
    else
      match CutAt(s[1..], sep)
      case None => None
      case Some(halves) => Some(([s[0]] + halves.0, halves.1))
  }

  lemma {:induction false} CutAtFirst(a: string, b: string, sep: char)
    requires sep !in a
    ensures CutAt(a + [sep] + b, sep) == Some((a, b))
  {
    var s := a + [sep] + b;
    if a == "" {
      assert s[1..] == b;
    } else {
      assert s[1..] == a[1..] + [sep] + b;
      CutAtFirst(a[1..], b, sep);
      assert [a[0]] + a[1..] == a;
    }
  }

  lemma {:induction false} CutAtMeans(s: string, sep: char)
    ensures CutAt(s, sep).Some? ==>
      var (left, right) := CutAt(s, sep).value; s == left + [sep] + right && sep !in left
  {
    if s == "" || s[0] == sep {
    } else {
      CutAtMeans(s[1..], sep);
      assert s == [s[0]] + s[1..];
    }
  }
}
