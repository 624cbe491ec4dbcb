/** Line-oriented removal of `//` comments from a JSONC configuration text
    before it is handed to the JSON deserialiser.

    The text is split on '\n'; a line whose trimmed form starts with `//` is
    dropped; any other line is cut at its first `//` unless a left-to-right
    scan of the characters before that point, where a backslash escapes the
    next character and an unescaped '"' opens or closes a string, ends inside
    a string, in which case the whole line is kept. The kept lines are joined
    with '\n'. */
module JsonComments {

  datatype Option<T> = None | Some(value: T)

  // ---------------------------------------------------------------------------
  // Splitting on and joining with '\n'
  // ---------------------------------------------------------------------------

  /** The pieces of `s` between the '\n' separators, as `string.Split('\n')`
      returns them: there is always at least one piece, and an empty text
      gives one empty piece. */
  function Split(s: string): (r: seq<string>)
    ensures |r| >= 1
    ensures forall i :: 0 <= i < |r| ==> '\n' !in r[i]
  {
    if s == [] then [""]
    else
      var rest := Split(s[1..]);
      if s[0] == '\n' then [""] + rest
      else [[s[0]] + rest[0]] + rest[1..]
  }

  /** The pieces joined with '\n' between each two, as `string.Join('\n', _)`. */
  function Join(lines: seq<string>): string
  {
    if lines == [] then ""
    else if |lines| == 1 then lines[0]
    else lines[0] + "\n" + Join(lines[1..])
  }

  /** Joining the pieces of a split gives back the text. */
  lemma {:induction false} JoinSplit(s: string)
    ensures Join(Split(s)) == s
  {
    if s != [] {
      var rest := Split(s[1..]);
      JoinSplit(s[1..]);
      if s[0] == '\n' {
        assert Split(s) == [""] + rest;
        assert Join(Split(s)) == "" + "\n" + Join(rest);
      } else if |rest| == 1 {
        assert Split(s) == [[s[0]] + rest[0]];
      } else {
        var r := Split(s);
        assert r == [[s[0]] + rest[0]] + rest[1..];
        assert r[1..] == rest[1..];
        assert Join(rest) == rest[0] + "\n" + Join(rest[1..]);
        assert s == [s[0]] + s[1..];
      }
    }
  }

  /** A piece without '\n' followed by '\n' splits off as the first piece. */
  lemma {:induction false} SplitAfterPiece(w: string, t: string)
    requires '\n' !in w
    ensures Split(w + "\n" + t) == [w] + Split(t)
    ensures Split(w) == [w]
  {
    if w != [] {
      SplitAfterPiece(w[1..], t);
      assert (w + "\n" + t)[1..] == w[1..] + "\n" + t;
      assert [w[0]] + w[1..] == w;
    } else {
      assert "" + "\n" + t == "\n" + t;
      assert ("\n" + t)[1..] == t;
    }
  }

  /** Splitting a join of '\n'-free pieces gives back the pieces. */
  lemma {:induction false} SplitJoin(lines: seq<string>)
    requires |lines| >= 1
    requires forall i :: 0 <= i < |lines| ==> '\n' !in lines[i]
    ensures Split(Join(lines)) == lines
  {
    if |lines| == 1 {
      SplitAfterPiece(lines[0], "");
    } else {
      SplitJoin(lines[1..]);
      SplitAfterPiece(lines[0], Join(lines[1..]));
      assert [lines[0]] + lines[1..] == lines;
    }
  }

  // ---------------------------------------------------------------------------
  // Trim, StartsWith("//") and IndexOf("//")
  // ---------------------------------------------------------------------------

  /** The characters .NET's `char.IsWhiteSpace` accepts, which `string.Trim()`
      removes from both ends. */
  predicate IsWhiteSpace(c: char)
  {
    var n := c as int;
    (0x09 <= n <= 0x0D) || n == 0x20 || n == 0x85 || n == 0xA0 || n == 0x1680 ||
    (0x2000 <= n <= 0x200A) || n == 0x2028 || n == 0x2029 || n == 0x202F ||
    n == 0x205F || n == 0x3000
  }

  function TrimStart(s: string): (r: string)
    ensures |r| <= |s| && r == s[|s| - |r|..]
    ensures r != [] ==> !IsWhiteSpace(r[0])
    ensures forall i :: 0 <= i < |s| - |r| ==> IsWhiteSpace(s[i])
  {
    if s != [] && IsWhiteSpace(s[0]) then TrimStart(s[1..]) else s
  }

  function TrimEnd(s: string): (r: string)
    ensures |r| <= |s| && r == s[..|r|]
    ensures r != [] ==> !IsWhiteSpace(r[|r| - 1])
    ensures forall i :: |r| <= i < |s| ==> IsWhiteSpace(s[i])
  {
    if s != [] && IsWhiteSpace(s[|s| - 1]) then TrimEnd(s[..|s| - 1]) else s
  }

  function Trim(s: string): string
  {
    TrimEnd(TrimStart(s))
  }

  /** `//` occurs in `s` starting at position `j`. */
  predicate SlashesAt(s: string, j: int)
  {
    0 <= j && j + 1 < |s| && s[j] == '/' && s[j + 1] == '/'
  }

  predicate StartsWithSlashes(s: string)
  {
    SlashesAt(s, 0)
  }

  /** Ordinal `line.IndexOf("//")`: the first position where `//` starts, or
      -1 when there is none. */
  function IndexOfSlashes(line: string): (r: int)
    ensures -1 <= r < |line|
    ensures r >= 0 ==> SlashesAt(line, r)
    ensures forall j :: 0 <= j < (if r < 0 then |line| else r) ==> !SlashesAt(line, j)
  {
    if |line| < 2 then -1
    else if line[0] == '/' && line[1] == '/' then 0
    else
      var k := IndexOfSlashes(line[1..]);
      assert forall j :: 1 <= j < |line| && SlashesAt(line, j) ==> SlashesAt(line[1..], j - 1);
      if k < 0 then -1 else k + 1
  }

  // ---------------------------------------------------------------------------
  // The quote/escape scan in front of the first `//`
  // ---------------------------------------------------------------------------

  /** The two flags of the scan: inside a string, and the next character
      escaped. */
  datatype ScanState = ScanState(inString: bool, escaped: bool)

  /** One iteration of the scan over character `c`. */
  function ScanStep(st: ScanState, c: char): ScanState
  {
    if st.escaped then ScanState(st.inString, false)
    else if c == '\\' then ScanState(st.inString, true)
    else if c == '"' then ScanState(!st.inString, false)
    else st
  }

  /** The flags after scanning all of `s` from the start. */
  function Scan(s: string): ScanState
  {
    if s == [] then ScanState(false, false)
    else ScanStep(Scan(s[..|s| - 1]), s[|s| - 1])
  }

  /** The number of backslashes at the end of `s`. */
  function TrailingBackslashes(s: string): nat
  {
    if s == [] || s[|s| - 1] != '\\' then 0
    else 1 + TrailingBackslashes(s[..|s| - 1])
  }

  /** The number of '"' in `s` that are not escaped, a character being
      escaped when an odd number of backslashes stands right before it. */
  function UnescapedQuotes(s: string): nat
  {
    if s == [] then 0
    else
      var p := s[..|s| - 1];
      UnescapedQuotes(p) + if s[|s| - 1] == '"' && TrailingBackslashes(p) % 2 == 0 then 1 else 0
  }

  /** The scan ends inside a string exactly when an odd number of unescaped
      quotes was seen, and with the escape flag set exactly when the text
      ends in an odd run of backslashes. */
  lemma {:induction false} ScanCountsQuotes(s: string)
    ensures Scan(s).inString <==> UnescapedQuotes(s) % 2 == 1
    ensures Scan(s).escaped <==> TrailingBackslashes(s) % 2 == 1
  {
    if s != [] {
      ScanCountsQuotes(s[..|s| - 1]);
    }
  }

  // ---------------------------------------------------------------------------
  // What happens to one line
  // ---------------------------------------------------------------------------

  /** The fate of one line: None when it is dropped, otherwise the text kept. */
  function StripLine(line: string): (r: Option<string>)
    ensures r.Some? ==> r.value <= line
  {
    if StartsWithSlashes(Trim(line)) then None
    else
      var commentIndex := IndexOfSlashes(line);
      if commentIndex < 0 then Some(line)
      else if Scan(line[..commentIndex]).inString then Some(line)
      else Some(line[..commentIndex])
  }

  /** `s` is blank up to position `k`, where `//` starts. */
  predicate CommentLineAt(s: string, k: int)
  {
    0 <= k <= |s| && (forall i :: 0 <= i < k ==> IsWhiteSpace(s[i])) && SlashesAt(s, k)
  }

  /** The trimmed line starts with `//` exactly when the first characters of
      the line that are not white space are `//`. */
  lemma TrimStartsWithSlashes(line: string)
    ensures StartsWithSlashes(Trim(line)) <==> exists k :: CommentLineAt(line, k)
  {
    var ts := TrimStart(line);
    var t := TrimEnd(ts);
    var d := |line| - |ts|;
    if StartsWithSlashes(t) {
      assert ts[..|t|] == t;
      assert CommentLineAt(line, d);
    }
    if exists k :: CommentLineAt(line, k) {
      var k :| CommentLineAt(line, k);
      assert !IsWhiteSpace(line[k]);
      assert k >= d;
      assert ts[0] == line[d];
      assert k == d;
      assert ts[0] == '/' && ts[1] == '/';
      assert !IsWhiteSpace(ts[1]);
      assert |t| >= 2;
      assert t[0] == ts[0] && t[1] == ts[1];
    }
  }

  /** A line is dropped exactly when `//` is the first thing on it that is not
      white space. */
  lemma LineDropped(line: string)
    ensures StripLine(line).None? <==> exists k :: CommentLineAt(line, k)
  {
    TrimStartsWithSlashes(line);
  }

  /** A line without `//` is kept unchanged. */
  lemma LineWithoutComment(line: string)
    requires forall j :: !SlashesAt(line, j)
    ensures StripLine(line) == Some(line)
  {
    LineDropped(line);
  }

  /** A line that is not dropped and whose first `//` is preceded by an even
      number of unescaped quotes is cut right before that `//`; with an odd
      number it is kept whole, whatever follows. */
  lemma LineWithComment(line: string, c: nat)
    requires !exists k :: CommentLineAt(line, k)
    requires SlashesAt(line, c) && forall j :: 0 <= j < c ==> !SlashesAt(line, j)
    ensures UnescapedQuotes(line[..c]) % 2 == 0 ==> StripLine(line) == Some(line[..c])
    ensures UnescapedQuotes(line[..c]) % 2 == 1 ==> StripLine(line) == Some(line)
  {
    LineDropped(line);
    ScanCountsQuotes(line[..c]);
    assert IndexOfSlashes(line) == c;
  }

  /** What is kept of a line is kept whole by a second pass. */
  lemma {:induction false} StripLineStable(line: string)
    requires StripLine(line).Some?
    ensures StripLine(StripLine(line).value) == StripLine(line)
  {
    var o := StripLine(line).value;
    if o != line {
      var c := IndexOfSlashes(line);
      assert o == line[..c];
      forall j ensures !SlashesAt(o, j) {
        if 0 <= j && j + 1 < |o| {
          assert !SlashesAt(line, j);
          assert o[j] == line[j] && o[j + 1] == line[j + 1];
        }
      }
      LineWithoutComment(o);
    }
  }

  // ---------------------------------------------------------------------------
  // All lines
  // ---------------------------------------------------------------------------

  /** What StripLine decides for each line, position by position. */
  function Fates(lines: seq<string>): (r: seq<Option<string>>)
    ensures |r| == |lines|
    ensures forall i :: 0 <= i < |lines| ==> r[i] == StripLine(lines[i])
  {
    seq(|lines|, i requires 0 <= i < |lines| => StripLine(lines[i]))
  }

  /** The values of the `Some` entries, in order. */
  function Kept(fates: seq<Option<string>>): seq<string>
  {
    if fates == [] then []
    else
      var init := Kept(fates[..|fates| - 1]);
      match fates[|fates| - 1]
      case None => init
      case Some(v) => init + [v]
  }

  /** The positions of the `Some` entries, in increasing order. */
  function KeptPositions(fates: seq<Option<string>>): seq<nat>
  {
    if fates == [] then []
    else
      var init := KeptPositions(fates[..|fates| - 1]);
      if fates[|fates| - 1].Some? then init + [|fates| - 1] else init
  }

  /** The lines kept, in input order. */
  function StripLines(lines: seq<string>): seq<string>
  {
    Kept(Fates(lines))
  }

  /** The kept positions are increasing positions of the input, they are
      exactly the positions of the `Some` entries, and each output value is
      the value at its position. */
  lemma {:induction false} KeptAligned(fates: seq<Option<string>>)
    ensures |Kept(fates)| == |KeptPositions(fates)| <= |fates|
    ensures forall j :: 0 <= j < |KeptPositions(fates)| ==>
      KeptPositions(fates)[j] < |fates| &&
      fates[KeptPositions(fates)[j]] == Some(Kept(fates)[j])
    ensures forall j, k :: 0 <= j < k < |KeptPositions(fates)| ==>
      KeptPositions(fates)[j] < KeptPositions(fates)[k]
    ensures forall i :: 0 <= i < |fates| ==>
      (fates[i].Some? <==> i in KeptPositions(fates))
  {
    if fates != [] {
      var n := |fates| - 1;
      var init := fates[..n];
      KeptAligned(init);
      var pos, pos0 := KeptPositions(fates), KeptPositions(init);
      var out, out0 := Kept(fates), Kept(init);
      assert n !in pos0;
      forall j | 0 <= j < |pos0|
        ensures pos[j] == pos0[j] && out[j] == out0[j] && fates[pos0[j]] == init[pos0[j]]
      {
      }
      forall i | 0 <= i < n
        ensures fates[i].Some? <==> i in pos
      {
        assert fates[i] == init[i];
        assert i in pos <==> i in pos0;
      }
    }
  }

  /** When every entry is `Some`, Kept returns all the values. */
  lemma {:induction false} KeptAllSome(fates: seq<Option<string>>, vs: seq<string>)
    requires |fates| == |vs|
    requires forall i :: 0 <= i < |fates| ==> fates[i] == Some(vs[i])
    ensures Kept(fates) == vs
  {
    if fates != [] {
      var n := |fates| - 1;
      KeptAllSome(fates[..n], vs[..n]);
      assert vs[..n] + [vs[n]] == vs;
    }
  }

  /** The output lines correspond, in order, to the input lines StripLine does
      not drop, at increasing positions, and each is what StripLine keeps of
      its source line (a prefix of it); so there are no more output lines
      than input lines. */
  lemma StripLinesOrder(lines: seq<string>)
    ensures var out, pos := StripLines(lines), KeptPositions(Fates(lines));
      |out| == |pos| <= |lines| &&
      (forall j :: 0 <= j < |pos| ==>
        pos[j] < |lines| && StripLine(lines[pos[j]]) == Some(out[j]) && out[j] <= lines[pos[j]]) &&
      (forall j, k :: 0 <= j < k < |pos| ==> pos[j] < pos[k]) &&
      (forall i :: 0 <= i < |lines| ==> (StripLine(lines[i]).Some? <==> i in pos))
  {
    KeptAligned(Fates(lines));
  }

  /** No line handed to StripLines contains '\n', so neither does any
      output line. */
  lemma StripLinesNoNewline(lines: seq<string>)
    requires forall i :: 0 <= i < |lines| ==> '\n' !in lines[i]
    ensures forall j :: 0 <= j < |StripLines(lines)| ==> '\n' !in StripLines(lines)[j]
  {
    StripLinesOrder(lines);
    var out, pos := StripLines(lines), KeptPositions(Fates(lines));
    forall j | 0 <= j < |out| ensures '\n' !in out[j] {
      var src := lines[pos[j]];
      assert forall i :: 0 <= i < |out[j]| ==> out[j][i] == src[i];
    }
  }

  /** Lines that StripLine keeps whole are all kept whole by StripLines. */
  lemma StripLinesOfStable(lines: seq<string>)
    requires forall i :: 0 <= i < |lines| ==> StripLine(lines[i]) == Some(lines[i])
    ensures StripLines(lines) == lines
  {
    KeptAllSome(Fates(lines), lines);
  }

  /** Every line StripLines produces is kept whole by a second pass. */
  lemma StripLinesStable(lines: seq<string>)
    ensures forall j :: 0 <= j < |StripLines(lines)| ==>
      StripLine(StripLines(lines)[j]) == Some(StripLines(lines)[j])
  {
    StripLinesOrder(lines);
    var out, pos := StripLines(lines), KeptPositions(Fates(lines));
    forall j | 0 <= j < |out| ensures StripLine(out[j]) == Some(out[j]) {
      StripLineStable(lines[pos[j]]);
    }
  }

  // ---------------------------------------------------------------------------
  // The whole text
  // ---------------------------------------------------------------------------

  /** What RemoveJsonComments computes, as a function of the input text. */
  function CommentsRemoved(jsonc: string): string
  {
    Join(StripLines(Split(jsonc)))
  }

  /** Removing comments twice removes nothing more than removing them once. */
  lemma CommentsRemovedIdempotent(jsonc: string)
    ensures CommentsRemoved(CommentsRemoved(jsonc)) == CommentsRemoved(jsonc)
  {
    var out := StripLines(Split(jsonc));
    StripLinesNoNewline(Split(jsonc));
    StripLinesStable(Split(jsonc));
    if out == [] {
      assert Split("") == [""];
      assert StripLine("") == Some("");
      KeptAllSome(Fates([""]), [""]);
    } else {
      SplitJoin(out);
      StripLinesOfStable(out);
    }
  }

  /** A text with no `//` anywhere comes back unchanged. */
  lemma CommentsRemovedWithoutSlashes(jsonc: string)
    requires forall j :: !SlashesAt(jsonc, j)
    ensures CommentsRemoved(jsonc) == jsonc
  {
    var lines := Split(jsonc);
    forall i | 0 <= i < |lines| ensures StripLine(lines[i]) == Some(lines[i]) {
      NoSlashesInPieces(jsonc, i);
      LineWithoutComment(lines[i]);
    }
    StripLinesOfStable(lines);
    JoinSplit(jsonc);
  }

  /** A piece of a split has no `//` when the text has none. */
  lemma {:induction false} NoSlashesInPieces(s: string, i: nat)
    requires forall j :: !SlashesAt(s, j)
    requires i < |Split(s)|
    ensures forall j :: !SlashesAt(Split(s)[i], j)
  {
    if s != [] {
      var rest := Split(s[1..]);
      assert forall j :: !SlashesAt(s[1..], j) by {
        forall j ensures !SlashesAt(s[1..], j) {
          assert !SlashesAt(s, j + 1);
        }
      }
      if s[0] == '\n' {
        if i > 0 { NoSlashesInPieces(s[1..], i - 1); }
      } else if i > 0 {
        NoSlashesInPieces(s[1..], i);
      } else {
        NoSlashesInPieces(s[1..], 0);
        PieceIsPrefix(s);
        var p := Split(s)[0];
        forall j ensures !SlashesAt(p, j) {
          if 0 <= j && j + 1 < |p| {
            assert !SlashesAt(s, j);
            assert p[j] == s[j] && p[j + 1] == s[j + 1];
          }
        }
      }
    }
  }

  /** The first piece of a split is a prefix of the text. */
  lemma {:induction false} PieceIsPrefix(s: string)
    ensures Split(s)[0] <= s
  {
    if s != [] && s[0] != '\n' {
      PieceIsPrefix(s[1..]);
      assert s == [s[0]] + s[1..];
    }
  }

  // ---------------------------------------------------------------------------
  // The imperative procedure
  // ---------------------------------------------------------------------------

  /** Split the text into lines, drop comment lines, cut inline comments that
      are not inside a string, and join what is left. */
  method RemoveJsonComments(jsonc: string) returns (json: string)
    ensures json == CommentsRemoved(jsonc)
  {
    var lines := Split(jsonc);
    ghost var fates := Fates(lines);
    var result: seq<string> := [];
    for n := 0 to |lines|
      invariant result == Kept(fates[..n])
    {
      var line := lines[n];
      assert fates[..n + 1][..n] == fates[..n];
      var trimmed := Trim(line);
      if StartsWithSlashes(trimmed) {
        continue;
      }
      var commentIndex := IndexOfSlashes(line);
      if commentIndex >= 0 {
        var inString := false;
        var escaped := false;
        var isComment := true;
        for i := 0 to commentIndex
          invariant Scan(line[..i]) == ScanState(inString, escaped)
        {
          assert line[..i + 1][..i] == line[..i];
          if escaped {
            escaped := false;
            continue;
          }
          if line[i] == '\\' {
            escaped := true;
          } else if line[i] == '"' {
            inString := !inString;
          }
        }
        if inString {
          isComment := false;
        }
        if isComment {
          result := result + [line[..commentIndex]];
        } else {
          result := result + [line];
        }
      } else {
        result := result + [line];
      }
    }
    assert fates[..|lines|] == fates;
    json := Join(result);
  }
}
