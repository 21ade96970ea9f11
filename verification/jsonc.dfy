/** The fallback comment stripping of `load_json_config`: every line is cut
    at its first `//`, and the lines are joined back with newlines. */
module Jsonc {
  import opened Text

  /** Whether `s` contains `//` somewhere. */
  ghost predicate HasComment(s: string)
  {
    exists i :: 0 <= i < |s| - 1 && s[i] == '/' && s[i + 1] == '/'
  }

  /** Where the first `//` of a line starts, or the line's length when it
      has none. */
  function CutPoint(line: string): (k: nat)
    ensures k <= |line|
    ensures k < |line| ==> k + 1 < |line| && line[k] == '/' && line[k + 1] == '/'
    ensures forall i :: 0 <= i < k && i + 1 < |line| ==> !(line[i] == '/' && line[i + 1] == '/')
  {
    if |line| < 2 then |line|
    else if line[0] == '/' && line[1] == '/' then 0
    else
      var k := CutPoint(line[1..]);
      assert forall i :: 1 <= i < |line| - 1 ==> line[i] == line[1..][i - 1] && line[i + 1] == line[1..][i];
      1 + k
  }

  /** `line.split('//')[0]`: the text before the first `//`, or the whole
      line when it has none. What is kept is a prefix of the line that
      holds no `//`, and the line is kept whole exactly when it has none. */
  function StripLine(line: string): (r: string)
    ensures r <= line
    ensures !HasComment(r)
    ensures r == line <==> !HasComment(line)
  {
    var k := CutPoint(line);
    NoCommentBeforeCut(line, line[..k]);
    assert k == |line| ==> line[..k] == line;
    line[..k]
  }

  /** A prefix of a line in front of which no `//` starts holds none. */
  lemma NoCommentBeforeCut(line: string, r: string)
    requires r <= line
    requires forall i :: 0 <= i < |r| && i + 1 < |line| ==> !(line[i] == '/' && line[i + 1] == '/')
    ensures !HasComment(r)
  {
    forall i | 0 <= i < |r| - 1 ensures !(r[i] == '/' && r[i + 1] == '/') {
      assert line[i] == r[i] && line[i + 1] == r[i + 1];
    }
  }

  /** Every line with its comment removed. */
  function StripLines(lines: seq<string>): (r: seq<string>)
    ensures |r| == |lines|
    ensures forall i :: 0 <= i < |lines| ==> r[i] == StripLine(lines[i])
  {
    seq(|lines|, i requires 0 <= i < |lines| => StripLine(lines[i]))
  }

  /** The cleaned text: `'\n'.join(lines)` of the stripped lines of
      `content.split('\n')`. */
  function StripComments(content: string): string
  {
    Join(StripLines(Split(content, '\n')), '\n')
  }

  /** Splitting the cleaned text gives back one line per input line, each
      the input line cut at its first `//`: line numbers are preserved. */
  lemma StripCommentsLines(content: string)
    ensures Split(StripComments(content), '\n') == StripLines(Split(content, '\n'))
    ensures |Split(StripComments(content), '\n')| == |Split(content, '\n')|
  {
    var lines := Split(content, '\n');
    var stripped := StripLines(lines);
    forall i | 0 <= i < |stripped| ensures '\n' !in stripped[i] {
      assert stripped[i] <= lines[i];
      assert forall c :: c in stripped[i] ==> c in lines[i];
    }
    SplitJoin(stripped, '\n');
  }

  /** No line of the cleaned text holds `//` any more, and each is a
      prefix of its original line. */
  lemma StripCommentsClean(content: string)
    ensures |Split(StripComments(content), '\n')| == |Split(content, '\n')|
    ensures forall i :: 0 <= i < |Split(StripComments(content), '\n')| ==>
              !HasComment(Split(StripComments(content), '\n')[i]) &&
              Split(StripComments(content), '\n')[i] <= Split(content, '\n')[i]
  {
    StripCommentsLines(content);
  }

  /** A text none of whose lines holds `//` comes through unchanged. */
  lemma StripCommentsNoComment(content: string)
    requires forall i :: 0 <= i < |Split(content, '\n')| ==> !HasComment(Split(content, '\n')[i])
    ensures StripComments(content) == content
  {
    var lines := Split(content, '\n');
    assert StripLines(lines) == lines;
    JoinSplit(content, '\n');
  }

  /** Cleaning is idempotent. */
  lemma StripCommentsIdempotent(content: string)
    ensures StripComments(StripComments(content)) == StripComments(content)
  {
    StripCommentsClean(content);
    StripCommentsNoComment(StripComments(content));
  }

  /** A line is cut exactly at its first `//`: what precedes a `//` is
      kept when it holds no `//` itself and does not end in `/`. */
  lemma StripAtFirstComment(p: string, q: string)
    requires !HasComment(p)
    requires |p| == 0 || p[|p| - 1] != '/'
    ensures StripLine(p + "//" + q) == p
  {
    var line := p + "//" + q;
    var k := CutPoint(line);
    assert line[|p|] == '/' && line[|p| + 1] == '/';
    forall j | 0 <= j < |p| ensures !(line[j] == '/' && line[j + 1] == '/') {
      assert line[j] == p[j];
      if j + 1 < |p| {
        assert line[j + 1] == p[j + 1];
      }
    }
    assert k == |p|;
    assert line[..k] == p;
  }

  /** The stripping does not look at string literals: a URL in a value is
      cut at its `//` too. */
  lemma UrlIsCut()
    ensures StripLine("\"url\": \"http://x\"") == "\"url\": \"http:"
  {
    var p := "\"url\": \"http:";
    assert !HasComment(p);
    StripAtFirstComment(p, "x\"");
    assert p + "//" + "x\"" == "\"url\": \"http://x\"";
  }
}
