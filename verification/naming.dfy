/** The naming transforms applied to every emitted column name:
    `to_snake_case`, `to_camel_case`, `to_pascal_case` and the dispatcher
    `apply_case_style`. Letters are ASCII only: any other character is
    neither upper- nor lower-case and is left alone by the case mappings. */
module Naming {
  import opened Text

  predicate IsUpper(c: char)
  {
    'A' <= c <= 'Z'
  }

  predicate IsLower(c: char)
  {
    'a' <= c <= 'z'
  }

  /** `str.lower` on one character. */
  function Lower(c: char): (d: char)
    ensures !IsUpper(d)
    ensures !IsUpper(c) ==> d == c
    ensures d == '_' <==> c == '_'
  {
    if IsUpper(c) then (c as int + 32) as char else c
  }

  /** `str.upper` on one character. */
  function Upper(c: char): (d: char)
    ensures !IsLower(d)
    ensures !IsUpper(c) ==> Lower(d) == c
    ensures d == '_' <==> c == '_'
  {
    if IsLower(c) then (c as int - 32) as char else c
  }

  /** `str.lower` on a string. */
  function LowerAll(s: string): string
  {
    seq(|s|, i requires 0 <= i < |s| => Lower(s[i]))
  }

  lemma LowerAllAppend(a: string, b: string)
    ensures LowerAll(a + b) == LowerAll(a) + LowerAll(b)
  {
    assert forall i :: 0 <= i < |a + b| ==> LowerAll(a + b)[i] == (LowerAll(a) + LowerAll(b))[i];
  }

  predicate NoUpper(s: string)
  {
    forall i :: 0 <= i < |s| ==> !IsUpper(s[i])
  }

  /** Snake case puts a `_` before position `i` exactly when `s[i]` is an
      upper-case letter that is not the first character and whose
      predecessor or successor is a lower-case letter. */
  predicate WordStart(s: string, i: nat)
    requires i < |s|
  {
    IsUpper(s[i]) && i > 0 && (IsLower(s[i - 1]) || (i + 1 < |s| && IsLower(s[i + 1])))
  }

  /** The number of word starts among the first `n` positions. */
  function WordStarts(s: string, n: nat): nat
    requires n <= |s|
  {
    if n == 0 then 0 else WordStarts(s, n - 1) + (if WordStart(s, n - 1) then 1 else 0)
  }

  /** What the snake-case loop appends for position `i`. */
  function SnakeStep(s: string, i: nat): string
    requires i < |s|
  {
    (if WordStart(s, i) then "_" else "") + [Lower(s[i])]
  }

  /** The output of the snake-case loop after its first `n` iterations. */
  function SnakeUpTo(s: string, n: nat): string
    requires n <= |s|
  {
    if n == 0 then "" else SnakeUpTo(s, n - 1) + SnakeStep(s, n - 1)
  }

  lemma {:induction false} SnakeUpToShape(s: string, n: nat)
    requires n <= |s|
    ensures NoUpper(SnakeUpTo(s, n))
    ensures |SnakeUpTo(s, n)| == n + WordStarts(s, n)
  {
    if n > 0 {
      SnakeUpToShape(s, n - 1);
    }
  }

  /** The output of the loop only grows: after `n` iterations it extends
      the output after `m <= n`. */
  lemma {:induction false} SnakeUpToPrefix(s: string, m: nat, n: nat)
    requires m <= n <= |s|
    ensures |SnakeUpTo(s, m)| <= |SnakeUpTo(s, n)|
    ensures SnakeUpTo(s, n)[..|SnakeUpTo(s, m)|] == SnakeUpTo(s, m)
    decreases n
  {
    if m < n {
      SnakeUpToPrefix(s, m, n - 1);
      var a := SnakeUpTo(s, n - 1);
      assert SnakeUpTo(s, n) == a + SnakeStep(s, n - 1);
      assert SnakeUpTo(s, n)[..|SnakeUpTo(s, m)|] == a[..|SnakeUpTo(s, m)|];
    }
  }

  /** Where character `i` of the input lands in the snake-cased name:
      behind the `i` characters before it and one `_` per word start up to
      and including it. */
  function SnakeIndex(s: string, i: nat): (k: nat)
    requires i < |s|
    ensures k >= i
    ensures WordStart(s, i) ==> k > i
  {
    i + WordStarts(s, i + 1)
  }

  lemma SnakeLetter(s: string, i: nat)
    requires i < |s|
    ensures SnakeIndex(s, i) < |SnakeUpTo(s, |s|)|
    ensures SnakeUpTo(s, |s|)[SnakeIndex(s, i)] == Lower(s[i])
    ensures WordStart(s, i) ==> SnakeUpTo(s, |s|)[SnakeIndex(s, i) - 1] == '_'
  {
    var a := SnakeUpTo(s, i + 1);
    assert a == SnakeUpTo(s, i) + SnakeStep(s, i);
    SnakeUpToShape(s, i + 1);
    SnakeUpToPrefix(s, i + 1, |s|);
    var p := SnakeIndex(s, i);
    assert p == |a| - 1;
    assert SnakeUpTo(s, |s|)[p] == a[p];
    if WordStart(s, i) {
      assert SnakeUpTo(s, |s|)[p - 1] == a[p - 1];
    }
  }

  lemma SnakeLetters(s: string)
    ensures forall i {:trigger SnakeIndex(s, i)} :: 0 <= i < |s| ==>
              SnakeIndex(s, i) < |SnakeUpTo(s, |s|)| &&
              SnakeUpTo(s, |s|)[SnakeIndex(s, i)] == Lower(s[i]) &&
              (WordStart(s, i) ==> SnakeUpTo(s, |s|)[SnakeIndex(s, i) - 1] == '_')
  {
    forall i {:trigger SnakeIndex(s, i)} | 0 <= i < |s|
      ensures SnakeIndex(s, i) < |SnakeUpTo(s, |s|)|
      ensures SnakeUpTo(s, |s|)[SnakeIndex(s, i)] == Lower(s[i])
      ensures WordStart(s, i) ==> SnakeUpTo(s, |s|)[SnakeIndex(s, i) - 1] == '_'
    {
      SnakeLetter(s, i);
    }
  }

  /** `to_snake_case`: the result has no upper-case letter and is one
      character longer than the input per word start. Character `i` of
      the input lands lower-cased at `SnakeIndex(s, i)`, and a word start
      has its `_` directly in front. */
  function Snake(s: string): (r: string)
    ensures NoUpper(r)
    ensures |r| == |s| + WordStarts(s, |s|)
    ensures forall i {:trigger SnakeIndex(s, i)} :: 0 <= i < |s| ==>
              SnakeIndex(s, i) < |r| && r[SnakeIndex(s, i)] == Lower(s[i]) &&
              (WordStart(s, i) ==> r[SnakeIndex(s, i) - 1] == '_')
  {
    SnakeUpToShape(s, |s|);
    SnakeLetters(s);
    SnakeUpTo(s, |s|)
  }

  /** A name without upper-case letters has no word starts, so snake case
      leaves it unchanged. */
  lemma {:induction false} SnakeOfLowerIdentity(s: string)
    requires NoUpper(s)
    ensures Snake(s) == s
  {
    SnakeUpToLower(s, |s|);
    assert s[..|s|] == s;
  }

  lemma {:induction false} SnakeUpToLower(s: string, n: nat)
    requires NoUpper(s) && n <= |s|
    ensures SnakeUpTo(s, n) == s[..n]
  {
    if n > 0 {
      SnakeUpToLower(s, n - 1);
      assert s[..n] == s[..n - 1] + [s[n - 1]];
    }
  }

  /** Snake case is idempotent. */
  lemma SnakeIdempotent(s: string)
    ensures Snake(Snake(s)) == Snake(s)
  {
    SnakeOfLowerIdentity(Snake(s));
  }

  /** Snake case only lowercases letters and inserts underscores: with
      the underscores erased it is the lowercased input. */
  lemma SnakeErase(s: string)
    ensures Erase(Snake(s), '_') == Erase(LowerAll(s), '_')
  {
    SnakeUpToErase(s, |s|);
    assert s[..|s|] == s;
  }

  lemma {:induction false} SnakeUpToErase(s: string, n: nat)
    requires n <= |s|
    ensures Erase(SnakeUpTo(s, n), '_') == Erase(LowerAll(s[..n]), '_')
  {
    if n > 0 {
      SnakeUpToErase(s, n - 1);
      var prev, step := SnakeUpTo(s, n - 1), SnakeStep(s, n - 1);
      assert SnakeUpTo(s, n) == prev + step;
      EraseAppend(prev, step, '_');
      SnakeStepErase(s, n - 1);
      assert s[..n] == s[..n - 1] + [s[n - 1]];
      LowerAllAppend(s[..n - 1], [s[n - 1]]);
      EraseAppend(LowerAll(s[..n - 1]), LowerAll([s[n - 1]]), '_');
    }
  }

  lemma SnakeStepErase(s: string, i: nat)
    requires i < |s|
    ensures Erase(SnakeStep(s, i), '_') == Erase([Lower(s[i])], '_')
  {
    if WordStart(s, i) {
      EraseAppend("_", [Lower(s[i])], '_');
      assert Erase("_", '_') == "" by { assert "_"[1..] == ""; }
    } else {
      assert SnakeStep(s, i) == [Lower(s[i])];
    }
  }

  /** `str.capitalize`: the first character upper-cased, the rest
      lower-cased; the letters stay the same up to case. */
  function Capitalize(w: string): (r: string)
    ensures |r| == |w|
    ensures |w| > 0 ==> !IsLower(r[0]) && Lower(r[0]) == Lower(w[0])
    ensures forall i :: 1 <= i < |w| ==> r[i] == Lower(w[i])
  {
    if |w| == 0 then "" else [Upper(w[0])] + LowerAll(w[1..])
  }

  /** On a word without upper-case letters, capitalising upper-cases the
      first character only, so lower-casing undoes it. */
  lemma CapitalizeLower(w: string)
    requires NoUpper(w)
    ensures |w| > 0 ==> Capitalize(w) == [Upper(w[0])] + w[1..]
    ensures LowerAll(Capitalize(w)) == w
    ensures '_' !in w ==> '_' !in Capitalize(w)
  {
    if |w| > 0 {
      NoUpperLowerAll(w[1..]);
      assert w == [w[0]] + w[1..];
      assert forall c :: c in w[1..] ==> c in w;
    }
  }

  /** `''.join(word.capitalize() for word in parts)`. */
  function CapitalizeAll(parts: seq<string>): string
  {
    if |parts| == 0 then "" else Capitalize(parts[0]) + CapitalizeAll(parts[1..])
  }

  /** Capitalising words without upper-case letters and lower-casing the
      result runs the words together; no underscore is introduced. */
  lemma {:induction false} CapitalizeAllLower(parts: seq<string>)
    requires forall i :: 0 <= i < |parts| ==> NoUpper(parts[i]) && '_' !in parts[i]
    ensures LowerAll(CapitalizeAll(parts)) == Concat(parts)
    ensures '_' !in CapitalizeAll(parts)
  {
    if |parts| > 0 {
      CapitalizeAllLower(parts[1..]);
      CapitalizeLower(parts[0]);
      LowerAllAppend(Capitalize(parts[0]), CapitalizeAll(parts[1..]));
      assert Concat(parts) == parts[0] + Concat(parts[1..]);
    }
  }

  /** The parts that camel and pascal case capitalise: the snake-cased name
      split on `_`. */
  function SnakeParts(s: string): seq<string>
  {
    Split(Snake(s), '_')
  }

  /** The snake words hold no underscore and no upper-case letter, and run
      together they are the snake-cased name without its underscores. */
  lemma SnakePartsShape(s: string)
    ensures |SnakeParts(s)| >= 1
    ensures forall i :: 0 <= i < |SnakeParts(s)| ==>
              '_' !in SnakeParts(s)[i] && NoUpper(SnakeParts(s)[i])
    ensures Concat(SnakeParts(s)) == Erase(Snake(s), '_')
  {
    SplitChars(Snake(s), '_');
    JoinSplit(Snake(s), '_');
    EraseJoin(SnakeParts(s), '_');
  }

  /** Camel and pascal case read off the snake-cased name one character at
      a time: every `_` is dropped and the character after it upper-cased.
      `up` says whether the next character is upper-cased as well; pascal
      case starts with it set, camel case without. */
  function CaseScan(t: string, up: bool): (r: string)
    ensures '_' !in r
    ensures |r| == |t| - Count(t, '_')
    ensures up && |r| > 0 ==> !IsLower(r[0])
    decreases |t|
  {
    if |t| == 0 then ""
    else if t[0] == '_' then CaseScan(t[1..], true)
    else [if up then Upper(t[0]) else t[0]] + CaseScan(t[1..], false)
  }

  /** Where a character of `t` other than `_` lands in the scan: moved
      left by the number of underscores before it. */
  function ScanIndex(t: string, p: nat): nat
    requires p <= |t|
  {
    p - Count(t[..p], '_')
  }

  /** In the scan, a character other than `_` sits at its `ScanIndex`,
      upper-cased exactly when it follows an `_` (or, with `up`, comes
      first). */
  lemma {:induction false} CaseScanAt(t: string, up: bool, p: nat)
    requires p < |t| && t[p] != '_'
    ensures ScanIndex(t, p) < |CaseScan(t, up)|
    ensures CaseScan(t, up)[ScanIndex(t, p)] ==
              if (p == 0 && up) || (p > 0 && t[p - 1] == '_') then Upper(t[p]) else t[p]
    decreases |t|
  {
    if p > 0 {
      assert t[..p][0] == t[0] && t[..p][1..] == t[1..][..p - 1];
      assert t[1..][p - 1] == t[p];
      CaseScanAt(t[1..], t[0] == '_', p - 1);
      if p > 1 {
        assert t[1..][p - 2] == t[p - 1];
      }
    }
  }

  lemma NoUpperLowerAll(w: string)
    requires NoUpper(w)
    ensures LowerAll(w) == w
  {
  }

  /** The scan and the split-and-capitalise of the source agree on any
      name without upper-case letters, such as a snake-cased one. */
  lemma {:induction false} CaseScanWords(t: string)
    requires NoUpper(t)
    ensures CaseScan(t, true) == CapitalizeAll(Split(t, '_'))
    ensures CaseScan(t, false) == CamelWords(Split(t, '_'))
    decreases |t|
  {
    if |t| == 0 {
      assert Split(t, '_') == [""];
      assert [""][1..] == [];
    } else {
      assert NoUpper(t[1..]);
      CaseScanWords(t[1..]);
      if t[0] == '_' {
        var rest := Split(t[1..], '_');
        assert Split(t, '_') == [""] + rest;
        assert ([""] + rest)[1..] == rest;
      } else {
        CaseScanWordsLetter(t);
      }
    }
  }

  /** The words of a name without upper-case letters have none either. */
  lemma SplitNoUpper(t: string, sep: char)
    requires NoUpper(t)
    ensures forall i :: 0 <= i < |Split(t, sep)| ==> NoUpper(Split(t, sep)[i])
  {
    SplitChars(t, sep);
  }

  /** The step of `CaseScanWords` for a name starting with a character
      other than `_`: that character joins the first word. */
  lemma {:induction false} CaseScanWordsLetter(t: string)
    requires NoUpper(t) && |t| > 0 && t[0] != '_'
    requires CaseScan(t[1..], false) == CamelWords(Split(t[1..], '_'))
    ensures CaseScan(t, true) == CapitalizeAll(Split(t, '_'))
    ensures CaseScan(t, false) == CamelWords(Split(t, '_'))
  {
    var rest := Split(t[1..], '_');
    var w, tail := [t[0]] + rest[0], CapitalizeAll(rest[1..]);
    SplitLetter(t, '_');
    WordsCons(w, rest[1..]);
    assert CaseScan(t[1..], false) == rest[0] + tail;
    assert Capitalize(w) == [Upper(t[0])] + rest[0] by {
      SplitNoUpper(t[1..], '_');
      assert w[0] == t[0] && w[1..] == rest[0];
      CapitalizeWord(w);
    }
    AppendAssoc([Upper(t[0])], rest[0], tail);
    AppendAssoc([t[0]], rest[0], tail);
  }

  /** `Split` on a name starting with a character other than the
      separator: that character joins the first word. */
  lemma SplitLetter(t: string, sep: char)
    requires |t| > 0 && t[0] != sep
    ensures Split(t, sep) == [[t[0]] + Split(t[1..], sep)[0]] + Split(t[1..], sep)[1..]
  {
  }

  lemma WordsCons(w: string, ws: seq<string>)
    ensures CapitalizeAll([w] + ws) == Capitalize(w) + CapitalizeAll(ws)
    ensures CamelWords([w] + ws) == w + CapitalizeAll(ws)
  {
    assert ([w] + ws)[0] == w && ([w] + ws)[1..] == ws;
  }

  lemma AppendAssoc<T>(a: seq<T>, b: seq<T>, c: seq<T>)
    ensures (a + b) + c == a + (b + c)
  {
  }

  /** `to_camel_case`: the first snake word as it is, every later one
      capitalised, run together. Read off the snake-cased name, each `_`
      is dropped and the character after it upper-cased. */
  function Camel(s: string): (r: string)
    ensures r == CaseScan(Snake(s), false)
  {
    CaseScanWords(Snake(s));
    CamelWords(SnakeParts(s))
  }

  /** The first word as it is, every later one capitalised, run together. */
  function CamelWords(parts: seq<string>): string
  {
    if |parts| == 0 then "" else parts[0] + CapitalizeAll(parts[1..])
  }

  /** `to_pascal_case`: every snake word capitalised, run together. Read
      off the snake-cased name, each `_` is dropped and the first character
      and every character after an `_` upper-cased. */
  function Pascal(s: string): (r: string)
    ensures r == CaseScan(Snake(s), true)
  {
    CaseScanWords(Snake(s));
    CapitalizeAll(SnakeParts(s))
  }

  /** Camel and pascal case drop every underscore and differ from snake
      case only in letter case: lowered, either one is the snake-cased name
      without its underscores. A character of the snake-cased name other
      than `_` lands at its `ScanIndex`, upper-cased exactly when it
      follows an `_`, or, in pascal case, when it comes first. */
  lemma CamelPascalShape(s: string)
    ensures '_' !in Camel(s) && LowerAll(Camel(s)) == Erase(Snake(s), '_')
    ensures '_' !in Pascal(s) && LowerAll(Pascal(s)) == Erase(Snake(s), '_')
    ensures forall p {:trigger ScanIndex(Snake(s), p)} :: 0 <= p < |Snake(s)| && Snake(s)[p] != '_' ==>
              ScanIndex(Snake(s), p) < |Pascal(s)| &&
              Pascal(s)[ScanIndex(Snake(s), p)] ==
                if p == 0 || Snake(s)[p - 1] == '_' then Upper(Snake(s)[p]) else Snake(s)[p]
    ensures forall p {:trigger ScanIndex(Snake(s), p)} :: 0 <= p < |Snake(s)| && Snake(s)[p] != '_' ==>
              ScanIndex(Snake(s), p) < |Camel(s)| &&
              Camel(s)[ScanIndex(Snake(s), p)] ==
                if p > 0 && Snake(s)[p - 1] == '_' then Upper(Snake(s)[p]) else Snake(s)[p]
  {
    CamelPascalLower(s);
    var t := Snake(s);
    forall p {:trigger ScanIndex(t, p)} | 0 <= p < |t| && t[p] != '_'
      ensures ScanIndex(t, p) < |Pascal(s)|
      ensures Pascal(s)[ScanIndex(t, p)] == if p == 0 || t[p - 1] == '_' then Upper(t[p]) else t[p]
      ensures ScanIndex(t, p) < |Camel(s)|
      ensures Camel(s)[ScanIndex(t, p)] == if p > 0 && t[p - 1] == '_' then Upper(t[p]) else t[p]
    {
      CaseScanAt(t, true, p);
      CaseScanAt(t, false, p);
    }
  }

  lemma CamelPascalLower(s: string)
    ensures '_' !in Camel(s) && LowerAll(Camel(s)) == Erase(Snake(s), '_')
    ensures '_' !in Pascal(s) && LowerAll(Pascal(s)) == Erase(Snake(s), '_')
  {
    var parts := SnakeParts(s);
    SnakePartsShape(s);
    CapitalizeAllLower(parts);
    CapitalizeAllLower(parts[1..]);
    LowerAllAppend(parts[0], CapitalizeAll(parts[1..]));
    assert LowerAll(parts[0]) == parts[0];
    assert Concat(parts) == parts[0] + Concat(parts[1..]);
  }

  /** Snake case keeps the first character in front, lower-cased. */
  lemma SnakeHead(s: string)
    ensures |s| > 0 ==> |Snake(s)| > 0 && Snake(s)[0] == Lower(s[0])
  {
    if |s| > 0 {
      SnakeUpToHead(s, |s|);
    }
  }

  /** `apply_case_style`: snake, camel and pascal by name; any other style
      leaves the name unchanged. Camel and pascal case part ways at the
      first character, which pascal case upper-cases and camel case leaves
      lower-cased. */
  function ApplyCase(name: string, style: string): (r: string)
    ensures style == "snake" ==> NoUpper(r) && Erase(r, '_') == Erase(LowerAll(name), '_')
    ensures style == "camel" || style == "pascal" ==>
              '_' !in r && LowerAll(r) == Erase(Snake(name), '_')
    ensures style == "camel" && |name| > 0 && name[0] != '_' ==> |r| > 0 && r[0] == Lower(name[0])
    ensures style == "pascal" && |name| > 0 && name[0] != '_' ==> |r| > 0 && r[0] == Upper(Lower(name[0]))
    ensures style != "snake" && style != "camel" && style != "pascal" ==> r == name
    ensures style == "snake" ==> r == Snake(name)
    ensures style == "camel" ==> r == CaseScan(Snake(name), false)
    ensures style == "pascal" ==> r == CaseScan(Snake(name), true)
  {
    SnakeErase(name);
    CamelPascalShape(name);
    SnakeHead(name);
    if style == "snake" then Snake(name)
    else if style == "camel" then Camel(name)
    else if style == "pascal" then Pascal(name)
    else name
  }

  /** Snake case never puts an underscore in front: its first character is
      the lowered first character of the input. */
  lemma {:induction false} SnakeUpToHead(s: string, n: nat)
    requires 1 <= n <= |s|
    ensures SnakeUpTo(s, n)[0] == Lower(s[0])
  {
    if n == 1 {
      assert !WordStart(s, 0);
      assert SnakeUpTo(s, 1) == "" + SnakeStep(s, 0);
    } else {
      SnakeUpToHead(s, n - 1);
    }
  }

  /** Camel case is pascal case with the first character lowered, except
      when the name starts with an underscore: then the first snake word is
      empty and the two agree. */
  lemma CamelFromPascal(s: string)
    ensures |Camel(s)| == |Pascal(s)|
    ensures |s| > 0 && s[0] != '_' ==>
              |Pascal(s)| > 0 && Camel(s) == [Lower(Pascal(s)[0])] + Pascal(s)[1..]
    ensures |s| == 0 || s[0] == '_' ==> Camel(s) == Pascal(s)
  {
    var parts := SnakeParts(s);
    SnakePartsShape(s);
    var rest := CapitalizeAll(parts[1..]);
    assert Camel(s) == parts[0] + rest;
    assert Pascal(s) == Capitalize(parts[0]) + rest;
    CapitalizeLower(parts[0]);
    var t := Snake(s);
    if |s| > 0 {
      SnakeUpToHead(s, |s|);
    }
    if |s| > 0 && s[0] != '_' {
      assert t[0] != '_';
      assert |parts[0]| > 0;
      assert Capitalize(parts[0]) == [Upper(parts[0][0])] + parts[0][1..];
      assert Lower(Upper(parts[0][0])) == parts[0][0];
      assert parts[0] == [parts[0][0]] + parts[0][1..];
    } else {
      assert t == "" || t[0] == '_';
      assert parts[0] == "";
    }
  }

  // Examples of the three styles.

  lemma SnakeExamples()
    ensures Snake("") == ""
    ensures Snake("XMLParser") == "xml_parser"
  {
    var s := "XMLParser";
    assert SnakeUpTo(s, 3) == "xml" by {
      assert SnakeUpTo(s, 1) == "x";
      assert SnakeUpTo(s, 2) == "xm";
    }
    assert SnakeUpTo(s, 4) == "xml_p";
    assert SnakeUpTo(s, 5) == "xml_pa";
    assert SnakeUpTo(s, 6) == "xml_par";
    assert SnakeUpTo(s, 7) == "xml_pars";
    assert SnakeUpTo(s, 8) == "xml_parse";
  }

  lemma SnakeExamplePatient()
    ensures Snake("patientGivenName") == "patient_given_name"
  {
    var s := "patientGivenName";
    assert SnakeUpTo(s, 7) == "patient" by {
      assert SnakeUpTo(s, 1) == "p";
      assert SnakeUpTo(s, 2) == "pa";
      assert SnakeUpTo(s, 3) == "pat";
      assert SnakeUpTo(s, 4) == "pati";
      assert SnakeUpTo(s, 5) == "patie";
      assert SnakeUpTo(s, 6) == "patien";
    }
    assert SnakeUpTo(s, 12) == "patient_given" by {
      assert SnakeUpTo(s, 8) == "patient_g";
      assert SnakeUpTo(s, 9) == "patient_gi";
      assert SnakeUpTo(s, 10) == "patient_giv";
      assert SnakeUpTo(s, 11) == "patient_give";
    }
    assert SnakeUpTo(s, 13) == "patient_given_n";
    assert SnakeUpTo(s, 14) == "patient_given_na";
    assert SnakeUpTo(s, 15) == "patient_given_nam";
  }

  lemma PatientParts()
    ensures SnakeParts("patient_given_name") == ["patient", "given", "name"]
  {
    assert Snake("patient_given_name") == "patient_given_name" by {
      SnakeOfLowerIdentity("patient_given_name");
    }
    assert Split("patient_given_name", '_') == ["patient", "given", "name"] by {
      assert Join(["patient", "given", "name"], '_') == "patient_given_name";
      SplitJoin(["patient", "given", "name"], '_');
    }
  }

  /** Capitalising a word whose tail has no upper-case letter upper-cases
      its head only. */
  lemma CapitalizeWord(w: string)
    requires |w| > 0 && NoUpper(w[1..])
    ensures Capitalize(w) == [Upper(w[0])] + w[1..]
  {
    NoUpperLowerAll(w[1..]);
  }

  lemma PatientWords()
    ensures CapitalizeAll(["patient", "given", "name"]) == "PatientGivenName"
  {
    var ws := ["patient", "given", "name"];
    CapitalizeWord(ws[0]);
    CapitalizeWord(ws[1]);
    CapitalizeWord(ws[2]);
    assert CapitalizeAll(ws[2..]) == "Name";
    assert CapitalizeAll(ws[1..]) == "Given" + CapitalizeAll(ws[2..]);
    assert CapitalizeAll(ws) == "Patient" + CapitalizeAll(ws[1..]);
  }

  lemma PascalExample()
    ensures Pascal("patient_given_name") == "PatientGivenName"
  {
    PatientParts();
    PatientWords();
  }

  lemma PatientCamelWords()
    ensures CamelWords(["patient", "given", "name"]) == "patientGivenName"
  {
    assert ["patient", "given", "name"][1..] == ["given", "name"];
    assert CapitalizeAll(["name"]) == "Name";
  }

  lemma CamelExample()
    ensures Camel("patient_given_name") == "patientGivenName"
  {
    PatientParts();
    PatientCamelWords();
  }

  lemma AbParts()
    ensures SnakeParts("a_b") == ["a", "b"]
    ensures SnakeParts("AB") == ["ab"]
  {
    SnakeOfLowerIdentity("a_b");
    SplitJoin(["a", "b"], '_');
    var s := "AB";
    assert SnakeUpTo(s, 1) == "a";
    assert SnakeUpTo(s, 2) == "ab";
    SplitJoin(["ab"], '_');
  }

  /** Pascal case is not idempotent: a one-letter word is upper-cased, and
      two upper-case letters in a row do not start a new snake word. */
  lemma PascalNotIdempotent()
    ensures Pascal("a_b") == "AB"
    ensures Pascal("AB") == "Ab"
  {
    AbParts();
  }

  lemma XabParts()
    ensures SnakeParts("x_a_b") == ["x", "a", "b"]
  {
    SnakeOfLowerIdentity("x_a_b");
    assert Join(["x", "a", "b"], '_') == "x_a_b";
    SplitJoin(["x", "a", "b"], '_');
  }

  lemma XabUpperParts()
    ensures SnakeParts("xAB") == ["x", "ab"]
  {
    var s := "xAB";
    assert SnakeUpTo(s, 1) == "x";
    assert SnakeUpTo(s, 2) == "x_a";
    assert SnakeUpTo(s, 3) == "x_ab";
    assert Join(["x", "ab"], '_') == "x_ab";
    SplitJoin(["x", "ab"], '_');
  }

  lemma XabCamelWords()
    ensures CamelWords(["x", "a", "b"]) == "xAB"
    ensures CamelWords(["x", "ab"]) == "xAb"
  {
    assert ["x", "a", "b"][1..] == ["a", "b"];
    assert ["x", "ab"][1..] == ["ab"];
  }

  /** Camel case is not idempotent either, for the same reason. */
  lemma CamelNotIdempotent()
    ensures Camel("x_a_b") == "xAB"
    ensures Camel("xAB") == "xAb"
  {
    XabParts();
    XabUpperParts();
    XabCamelWords();
  }
}
