/**
 * The chat page's answer renderer (web/static/home.js, `formatTextToHTML`):
 * escapes `&`, `<` and `>`, splits the text into lines at `\n` or `\r\n`,
 * and runs a two-state machine that groups consecutive `- ` / `* ` lines
 * into one `<ul>` list and turns every other line into a `<p>` paragraph.
 *
 * The machine is proved equal to an independent reference: the lines are
 * grouped into maximal runs of bullet lines and single paragraphs, and each
 * block is rendered on its own. About that reference the module proves the
 * promised shape of the output: one element per line in order, balanced and
 * unnested lists, no `<` or `>` of the input in any element, and HTML that
 * reads back as exactly the emitted tags.
 */
module AnswerHtml {
  import opened Wrappers
  import opened Text

  // ---------------------------------------------------------------------------
  // esc

  /** `s.replace(/c/g, rep)` for a single character `c`. */
  function ReplaceAll(s: string, c: char, rep: string): string
    decreases |s|
  {
    if |s| == 0 then "" else (if s[0] == c then rep else [s[0]]) + ReplaceAll(s[1..], c, rep)
  }

  /** `esc`: `&` is replaced first, then `<`, then `>`. */
  function Esc(s: string): string
  {
    ReplaceAll(ReplaceAll(ReplaceAll(s, '&', "&amp;"), '<', "&lt;"), '>', "&gt;")
  }

  function EscapeChar(c: char): string
  {
    if c == '&' then "&amp;" else if c == '<' then "&lt;" else if c == '>' then "&gt;" else [c]
  }

  /** Character-by-character escaping; contains neither `<` nor `>`. */
  function EscapeEach(s: string): (r: string)
    decreases |s|
    ensures '<' !in r && '>' !in r
    ensures CountChar('\n', r) == CountChar('\n', s)
  {
    if |s| == 0 then ""
    else
      var rest := EscapeEach(s[1..]);
      CountCharAppend('\n', EscapeChar(s[0]), rest);
      if s[0] == '&' || s[0] == '<' || s[0] == '>' then
        CountAbsent('\n', EscapeChar(s[0]));
        EscapeChar(s[0]) + rest
      else
        EscapeChar(s[0]) + rest
  }

  lemma {:induction false} CountAbsent(c: char, s: string)
    requires c !in s
    decreases |s|
    ensures CountChar(c, s) == 0
  {
    if |s| > 0 {
      CountAbsent(c, s[1..]);
    }
  }

  lemma {:induction false} CountCharAppend(c: char, a: string, b: string)
    decreases |a|
    ensures CountChar(c, a + b) == CountChar(c, a) + CountChar(c, b)
  {
    if |a| > 0 {
      assert (a + b)[1..] == a[1..] + b;
      CountCharAppend(c, a[1..], b);
    } else {
      assert a + b == b;
    }
  }

  lemma {:induction false} ReplaceAllAppend(a: string, b: string, c: char, rep: string)
    decreases |a|
    ensures ReplaceAll(a + b, c, rep) == ReplaceAll(a, c, rep) + ReplaceAll(b, c, rep)
  {
    if |a| > 0 {
      assert (a + b)[1..] == a[1..] + b;
      ReplaceAllAppend(a[1..], b, c, rep);
    } else {
      assert a + b == b;
    }
  }

  lemma {:induction false} ReplaceAllAbsent(s: string, c: char, rep: string)
    requires c !in s
    decreases |s|
    ensures ReplaceAll(s, c, rep) == s
  {
    if |s| > 0 {
      ReplaceAllAbsent(s[1..], c, rep);
      assert [s[0]] + s[1..] == s;
    }
  }

  /** The three chained replacements escape each character on its own: the `&` of an entity is never escaped again. */
  lemma {:induction false} EscIsPerCharacter(s: string)
    decreases |s|
    ensures Esc(s) == EscapeEach(s)
  {
    if |s| > 0 {
      var c, rest := s[0], s[1..];
      EscIsPerCharacter(rest);
      var x1 := if c == '&' then "&amp;" else [c];
      var r1 := ReplaceAll(rest, '&', "&amp;");
      assert ReplaceAll(s, '&', "&amp;") == x1 + r1;
      ReplaceAllAppend(x1, r1, '<', "&lt;");
      var x2 := if c == '<' then "&lt;" else x1;
      if c != '<' { ReplaceAllAbsent(x1, '<', "&lt;"); }
      else { assert ReplaceAll(x1, '<', "&lt;") == "&lt;"; }
      var r2 := ReplaceAll(r1, '<', "&lt;");
      ReplaceAllAppend(x2, r2, '>', "&gt;");
      if c != '>' { ReplaceAllAbsent(x2, '>', "&gt;"); }
      else { assert ReplaceAll(x2, '>', "&gt;") == "&gt;"; }
    }
  }

  /** Decodes the three entities `esc` produces. */
  function Unescape(s: string): string
    decreases |s|
  {
    if |s| == 0 then ""
    else if IsPrefix("&amp;", s) then "&" + Unescape(s[5..])
    else if IsPrefix("&lt;", s) then "<" + Unescape(s[4..])
    else if IsPrefix("&gt;", s) then ">" + Unescape(s[4..])
    else [s[0]] + Unescape(s[1..])
  }

  /** Escaping loses nothing: decoding the entities gives the text back. */
  lemma {:induction false} UnescapeEsc(s: string)
    ensures Unescape(Esc(s)) == s
  {
    EscIsPerCharacter(s);
    UnescapeEscapeEach(s);
  }

  lemma {:induction false} UnescapeEscapeEach(s: string)
    decreases |s|
    ensures Unescape(EscapeEach(s)) == s
  {
    if |s| > 0 {
      var c, rest := s[0], EscapeEach(s[1..]);
      UnescapeEscapeEach(s[1..]);
      assert EscapeEach(s) == EscapeChar(c) + rest;
      UnescapeEscapeChar(c, rest);
      assert [c] + s[1..] == s;
    }
  }

  lemma UnescapeEscapeChar(c: char, rest: string)
    ensures Unescape(EscapeChar(c) + rest) == [c] + Unescape(rest)
  {
    var t := EscapeChar(c) + rest;
    if c == '&' {
      assert t[..5] == "&amp;" && t[5..] == rest;
    } else if c == '<' {
      assert t[1] == 'l' && t[..4] == "&lt;" && t[4..] == rest;
      assert !IsPrefix("&amp;", t);
    } else if c == '>' {
      assert t[1] == 'g' && t[..4] == "&gt;" && t[4..] == rest;
      assert !IsPrefix("&amp;", t) && !IsPrefix("&lt;", t);
    } else {
      assert t[0] == c && t[1..] == rest;
      assert !IsPrefix("&amp;", t) && !IsPrefix("&lt;", t) && !IsPrefix("&gt;", t);
    }
  }

  /** No `<` or `>` of the input survives escaping. */
  lemma EscClean(s: string)
    ensures '<' !in Esc(s) && '>' !in Esc(s)
    ensures CountChar('\n', Esc(s)) == CountChar('\n', s)
  {
    EscIsPerCharacter(s);
  }

  // ---------------------------------------------------------------------------
  // trim and the line split

  /** The characters `String.prototype.trim` removes: white space and line terminators. */
  predicate IsSpace(c: char)
  {
    || c == '\t' || c == '\n' || c == '\U{B}' || c == '\U{C}' || c == '\r' || c == ' '
    || c == '\U{A0}' || c == '\U{1680}' || ('\U{2000}' <= c <= '\U{200A}')
    || c == '\U{2028}' || c == '\U{2029}' || c == '\U{202F}' || c == '\U{205F}'
    || c == '\U{3000}' || c == '\U{FEFF}'
  }

  function TrimStart(s: string): (r: string)
    decreases |s|
    ensures |r| == 0 || !IsSpace(r[0])
    ensures forall c :: c in r ==> c in s
  {
    if |s| > 0 && IsSpace(s[0]) then
      assert forall c :: c in s[1..] ==> c in s;
      TrimStart(s[1..])
    else s
  }

  function TrimEnd(s: string): (r: string)
    decreases |s|
    ensures |r| == 0 || !IsSpace(r[|r| - 1])
    ensures IsPrefix(r, s)
  {
    if |s| > 0 && IsSpace(s[|s| - 1]) then
      var r := TrimEnd(s[..|s| - 1]);
      assert s[..|s| - 1][..|r|] == s[..|r|];
      r
    else s
  }

  /** `s.trim()`: neither end of the result is white space, and it keeps only characters of `s`. */
  function Trim(s: string): (r: string)
    ensures |r| == 0 || (!IsSpace(r[0]) && !IsSpace(r[|r| - 1]))
    ensures forall c :: c in r ==> c in s
  {
    var t := TrimStart(s);
    var r := TrimEnd(t);
    assert forall c :: c in r ==> c in t by {
      assert r == t[..|r|];
    }
    r
  }

  /** `trim()` removes a run of white space at the front and one at the back, and nothing else. */
  lemma TrimShape(s: string)
    ensures exists i, j :: && 0 <= i <= j <= |s|
                           && (forall k :: 0 <= k < i ==> IsSpace(s[k]))
                           && (forall k :: j <= k < |s| ==> IsSpace(s[k]))
                           && Trim(s) == s[i..j]
  {
    TrimStartShape(s);
    var i :| 0 <= i <= |s| && (forall k :: 0 <= k < i ==> IsSpace(s[k])) && TrimStart(s) == s[i..];
    var t := s[i..];
    TrimEndShape(t);
    var j' :| 0 <= j' <= |t| && (forall k :: j' <= k < |t| ==> IsSpace(t[k])) && TrimEnd(t) == t[..j'];
    var j := i + j';
    assert t[..j'] == s[i..j];
    forall k | j <= k < |s|
      ensures IsSpace(s[k])
    {
      assert s[k] == t[k - i];
    }
    assert Trim(s) == TrimEnd(t);
    assert Trim(s) == s[i..j];
  }

  lemma {:induction false} TrimStartShape(s: string)
    decreases |s|
    ensures exists i :: 0 <= i <= |s| && (forall k :: 0 <= k < i ==> IsSpace(s[k])) && TrimStart(s) == s[i..]
  {
    if |s| > 0 && IsSpace(s[0]) {
      var rest := s[1..];
      TrimStartShape(rest);
      var i :| 0 <= i <= |rest| && (forall k :: 0 <= k < i ==> IsSpace(rest[k])) && TrimStart(rest) == rest[i..];
      forall k | 0 <= k < i + 1
        ensures IsSpace(s[k])
      {
        if k > 0 {
          assert s[k] == rest[k - 1];
        }
      }
      assert rest[i..] == s[i + 1..];
    } else {
      assert TrimStart(s) == s[0..];
    }
  }

  lemma {:induction false} TrimEndShape(s: string)
    decreases |s|
    ensures exists j :: 0 <= j <= |s| && (forall k :: j <= k < |s| ==> IsSpace(s[k])) && TrimEnd(s) == s[..j]
  {
    if |s| > 0 && IsSpace(s[|s| - 1]) {
      var init := s[..|s| - 1];
      TrimEndShape(init);
      var j :| 0 <= j <= |init| && (forall k :: j <= k < |init| ==> IsSpace(init[k])) && TrimEnd(init) == init[..j];
      forall k | j <= k < |s|
        ensures IsSpace(s[k])
      {
        if k < |s| - 1 {
          assert s[k] == init[k];
        }
      }
      assert init[..j] == s[..j];
    } else {
      assert TrimEnd(s) == s[..|s|];
    }
  }

  function DropCr(s: string): (r: string)
    ensures forall c :: c in r ==> c in s
  {
    if |s| > 0 && s[|s| - 1] == '\r' then s[..|s| - 1] else s
  }

  /**
   * `s.split(/\r?\n/)`: split at every `\n`; a `\r` right before a `\n`
   * belongs to the separator, so every piece but the last loses one
   * trailing `\r`.
   */
  function SplitLines(s: string): (lines: seq<string>)
    ensures |lines| == CountChar('\n', s) + 1
    ensures forall i :: 0 <= i < |lines| ==> '\n' !in lines[i]
    ensures forall i, c :: 0 <= i < |lines| && c in lines[i] ==> c in s
  {
    var parts := Split(s, '\n');
    seq(|parts|, i requires 0 <= i < |parts| => if i < |parts| - 1 then DropCr(parts[i]) else parts[i])
  }

  predicate EndsWithCr(s: string)
  {
    |s| > 0 && s[|s| - 1] == '\r'
  }

  /** Lines joined with `\n` read back as the same lines, unless one but the last ends in `\r`. */
  lemma SplitLinesJoinLf(lines: seq<string>)
    requires |lines| >= 1
    requires forall i :: 0 <= i < |lines| ==> '\n' !in lines[i]
    requires forall i :: 0 <= i < |lines| - 1 ==> !EndsWithCr(lines[i])
    ensures SplitLines(Join("\n", lines)) == lines
  {
    SplitJoin(lines, '\n');
  }

  function WithCr(lines: seq<string>): (r: seq<string>)
    ensures |r| == |lines|
  {
    seq(|lines|, i requires 0 <= i < |lines| => if i < |lines| - 1 then lines[i] + "\r" else lines[i])
  }

  lemma {:induction false} JoinCrLf(lines: seq<string>)
    requires |lines| >= 1
    decreases |lines|
    ensures Join("\r\n", lines) == Join("\n", WithCr(lines))
  {
    if |lines| > 1 {
      JoinCrLf(lines[1..]);
      assert WithCr(lines)[1..] == WithCr(lines[1..]);
      assert WithCr(lines)[0] == lines[0] + "\r";
      assert Join("\r\n", lines) == lines[0] + "\r\n" + Join("\r\n", lines[1..]);
      assert Join("\n", WithCr(lines)) == WithCr(lines)[0] + "\n" + Join("\n", WithCr(lines)[1..]);
    }
  }

  /** Lines joined with `\r\n` read back as the same lines. */
  lemma SplitLinesJoinCrLf(lines: seq<string>)
    requires |lines| >= 1
    requires forall i :: 0 <= i < |lines| ==> '\n' !in lines[i]
    ensures SplitLines(Join("\r\n", lines)) == lines
  {
    var parts := WithCr(lines);
    JoinCrLf(lines);
    forall i | 0 <= i < |parts|
      ensures '\n' !in parts[i]
      ensures i < |parts| - 1 ==> DropCr(parts[i]) == lines[i]
    {
      if i < |parts| - 1 {
        CrPiece(lines[i]);
      }
    }
    SplitJoin(parts, '\n');
    assert Split(Join("\r\n", lines), '\n') == parts;
  }

  lemma CrPiece(line: string)
    requires '\n' !in line
    ensures '\n' !in line + "\r"
    ensures DropCr(line + "\r") == line
  {
    assert (line + "\r")[..|line|] == line;
  }

  // ---------------------------------------------------------------------------
  // Line classification

  /** A line after trimming: a bullet item (its text) or a paragraph (its text). */
  datatype Line = Bullet(item: string) | Plain(text: string)

  function Content(k: Line): string
  {
    match k
    case Bullet(c) => c
    case Plain(t) => t
  }

  /**
   * A line whose trimmed form starts with `- ` or `* ` is a bullet holding
   * the rest, trimmed again; any other line is a paragraph holding the
   * trimmed line.
   */
  function Classify(line: string): Line
  {
    var trimmed := Trim(line);
    if IsPrefix("- ", trimmed) || IsPrefix("* ", trimmed) then Bullet(Trim(trimmed[2..]))
    else Plain(trimmed)
  }

  /**
   * A line is a bullet exactly when its trimmed form starts with a marker:
   * a bullet holds the trimmed line without its two marker characters,
   * trimmed again, and any other line holds the trimmed line. Either way the
   * content is trimmed and drawn from the line.
   */
  lemma ClassifyContent(line: string)
    ensures var k := Classify(line);
      && (k.Bullet? <==> (IsPrefix("- ", Trim(line)) || IsPrefix("* ", Trim(line))))
      && (k.Bullet? ==> |Trim(line)| >= 2 && Content(k) == Trim(Trim(line)[2..]))
      && (k.Plain? ==> Content(k) == Trim(line))
      && (|Content(k)| == 0 || (!IsSpace(Content(k)[0]) && !IsSpace(Content(k)[|Content(k)| - 1])))
      && (forall c :: c in Content(k) ==> c in line)
  {
    var trimmed := Trim(line);
    if |trimmed| >= 2 {
      assert forall c :: c in trimmed[2..] ==> c in trimmed;
    }
  }

  function ClassifyAll(lines: seq<string>): (ks: seq<Line>)
    ensures |ks| == |lines|
  {
    seq(|lines|, i requires 0 <= i < |lines| => Classify(lines[i]))
  }

  // ---------------------------------------------------------------------------
  // Tags and the state machine

  /** The pieces `out` collects. */
  datatype Tag = OpenList | CloseList | Item(content: string) | Para(content: string)

  function Render(t: Tag): string
  {
    match t
    case OpenList => "<ul>"
    case CloseList => "</ul>"
    case Item(c) => "<li>" + c + "</li>"
    case Para(c) => "<p>" + c + "</p>"
  }

  function RenderAll(tags: seq<Tag>): (out: seq<string>)
    decreases |tags|
    ensures |out| == |tags|
  {
    if |tags| == 0 then [] else [Render(tags[0])] + RenderAll(tags[1..])
  }

  lemma {:induction false} RenderAllSnoc(tags: seq<Tag>, t: Tag)
    decreases |tags|
    ensures RenderAll(tags + [t]) == RenderAll(tags) + [Render(t)]
  {
    if |tags| > 0 {
      assert (tags + [t])[1..] == tags[1..] + [t];
      RenderAllSnoc(tags[1..], t);
    } else {
      assert RenderAll([t]) == [Render(t)] + RenderAll([]);
    }
  }

  /**
   * The tags the `inList` machine emits for the remaining lines when it is
   * in state `inList`, including the final `</ul>` of line 65.
   */
  function Machine(ks: seq<Line>, inList: bool): seq<Tag>
    decreases |ks|
  {
    if |ks| == 0 then (if inList then [CloseList] else [])
    else Step(ks[0], inList) + Machine(ks[1..], ks[0].Bullet?)
  }

  /** The tags one line adds in state `inList`; afterwards the machine is in a list exactly when the line was a bullet. */
  function Step(k: Line, inList: bool): seq<Tag>
  {
    match k
    case Bullet(c) => (if inList then [] else [OpenList]) + [Item(c)]
    case Plain(t) => (if inList then [CloseList] else []) + [Para(t)]
  }

  // ---------------------------------------------------------------------------
  // The reference: maximal bullet runs and paragraphs

  /** A `<ul>` list with its items, or one paragraph. */
  datatype Block = List(items: seq<string>) | Paragraph(text: string)

  /** The number of bullet lines at the front of `ks`. */
  function BulletRun(ks: seq<Line>): (n: nat)
    decreases |ks|
    ensures n <= |ks|
    ensures forall i :: 0 <= i < n ==> ks[i].Bullet?
    ensures n < |ks| ==> ks[n].Plain?
  {
    if |ks| > 0 && ks[0].Bullet? then 1 + BulletRun(ks[1..]) else 0
  }

  /** The contents of the first `n` lines. */
  function RunItems(ks: seq<Line>, n: nat): (items: seq<string>)
    requires n <= |ks|
    decreases n
    ensures |items| == n
  {
    if n == 0 then [] else [Content(ks[0])] + RunItems(ks[1..], n - 1)
  }

  /** Groups lines into blocks: each maximal run of bullet lines is one list. */
  function Group(ks: seq<Line>): seq<Block>
    decreases |ks|
  {
    if |ks| == 0 then []
    else if ks[0].Plain? then [Paragraph(ks[0].text)] + Group(ks[1..])
    else
      var n := BulletRun(ks);
      [List(RunItems(ks, n))] + Group(ks[n..])
  }

  function ItemTags(items: seq<string>): (tags: seq<Tag>)
    decreases |items|
    ensures |tags| == |items|
  {
    if |items| == 0 then [] else [Item(items[0])] + ItemTags(items[1..])
  }

  function BlockTags(b: Block): seq<Tag>
  {
    match b
    case List(items) => [OpenList] + ItemTags(items) + [CloseList]
    case Paragraph(t) => [Para(t)]
  }

  function Tags(blocks: seq<Block>): seq<Tag>
    decreases |blocks|
  {
    if |blocks| == 0 then [] else BlockTags(blocks[0]) + Tags(blocks[1..])
  }

  /** The tags of the lines split from the escaped text. */
  function DocumentTags(text: string): seq<Tag>
  {
    Tags(Group(ClassifyAll(SplitLines(Esc(text)))))
  }

  /** What `formatTextToHTML` returns. */
  function ToHtml(text: string): string
  {
    if |text| == 0 then "" else Concat(RenderAll(DocumentTags(text)))
  }

  /** Inside a bullet run the machine emits the run's items, then `</ul>`, then carries on outside any list. */
  lemma {:induction false} MachineInRun(ks: seq<Line>)
    decreases |ks|
    ensures Machine(ks, true) == ItemTags(RunItems(ks, BulletRun(ks))) + [CloseList] + Machine(ks[BulletRun(ks)..], false)
  {
    if |ks| > 0 && ks[0].Bullet? {
      var rest := ks[1..];
      MachineInRun(rest);
      assert BulletRun(ks) == 1 + BulletRun(rest);
      assert rest[BulletRun(rest)..] == ks[BulletRun(ks)..];
    }
  }

  /** The `inList` machine agrees with the reference grouping. */
  lemma {:induction false} MachineIsGrouping(ks: seq<Line>)
    decreases |ks|
    ensures Machine(ks, false) == Tags(Group(ks))
  {
    if |ks| > 0 {
      if ks[0].Plain? {
        MachineIsGrouping(ks[1..]);
      } else {
        var n := BulletRun(ks);
        MachineInRun(ks[1..]);
        assert n == 1 + BulletRun(ks[1..]);
        assert ks[1..][BulletRun(ks[1..])..] == ks[n..];
        MachineIsGrouping(ks[n..]);
        assert Group(ks) == [List(RunItems(ks, n))] + Group(ks[n..]);
      }
    }
  }

  // ---------------------------------------------------------------------------
  // The shape of the output

  /** The `<li>` and `<p>` elements, in order, without the list brackets. */
  function Elements(tags: seq<Tag>): seq<Tag>
    decreases |tags|
  {
    if |tags| == 0 then []
    else (if tags[0].Item? || tags[0].Para? then [tags[0]] else []) + Elements(tags[1..])
  }

  /** The element a line becomes: a bullet an item, any other line a paragraph. */
  function LineTag(k: Line): Tag
  {
    match k
    case Bullet(c) => Item(c)
    case Plain(t) => Para(t)
  }

  function LineTags(ks: seq<Line>): (tags: seq<Tag>)
    decreases |ks|
    ensures |tags| == |ks|
  {
    if |ks| == 0 then [] else [LineTag(ks[0])] + LineTags(ks[1..])
  }

  lemma {:induction false} ElementsAppend(a: seq<Tag>, b: seq<Tag>)
    decreases |a|
    ensures Elements(a + b) == Elements(a) + Elements(b)
  {
    if |a| > 0 {
      assert (a + b)[1..] == a[1..] + b;
      ElementsAppend(a[1..], b);
    } else {
      assert a + b == b;
    }
  }

  /** Each line contributes exactly one element, in order, whatever the machine's state. */
  lemma {:induction false} MachineElements(ks: seq<Line>, inList: bool)
    decreases |ks|
    ensures Elements(Machine(ks, inList)) == LineTags(ks)
  {
    if |ks| > 0 {
      var step := Step(ks[0], inList);
      ElementsAppend(step, Machine(ks[1..], ks[0].Bullet?));
      MachineElements(ks[1..], ks[0].Bullet?);
      assert Elements(step) == [LineTag(ks[0])] by {
        if inList == ks[0].Bullet? {
          assert step == [LineTag(ks[0])];
        } else {
          assert step[1..] == [LineTag(ks[0])];
        }
      }
    }
  }

  /**
   * Well-formed tag sequences when a list is (`open`) or is not open: items
   * only inside a list, paragraphs only outside, every list opened with an
   * item after it and closed before a paragraph or the end; nothing is
   * left open.
   */
  predicate WellFormed(tags: seq<Tag>, open: bool)
    decreases |tags|
  {
    if |tags| == 0 then !open
    else
      var rest := tags[1..];
      match tags[0]
      case OpenList => !open && |rest| > 0 && rest[0].Item? && WellFormed(rest, true)
      case CloseList => open && (|rest| == 0 || rest[0].Para?) && WellFormed(rest, false)
      case Item(_) => open && WellFormed(rest, true)
      case Para(_) => !open && WellFormed(rest, false)
  }

  /** Lists are never empty, never nested, never adjacent, and always closed. */
  lemma {:induction false} MachineWellFormed(ks: seq<Line>, inList: bool)
    decreases |ks|
    ensures WellFormed(Machine(ks, inList), inList)
  {
    if |ks| > 0 {
      var k, rest := ks[0], ks[1..];
      var tail := Machine(rest, k.Bullet?);
      MachineWellFormed(rest, k.Bullet?);
      var tags := Machine(ks, inList);
      assert tags == Step(k, inList) + tail;
      match k
      case Bullet(c) =>
        if inList {
          assert tags[1..] == tail;
        } else {
          assert tags[1..] == [Item(c)] + tail;
          assert tags[1..][1..] == tail;
        }
      case Plain(t) =>
        if inList {
          assert tags[1..] == [Para(t)] + tail;
          assert tags[1..][1..] == tail;
        } else {
          assert tags[1..] == tail;
        }
    }
  }

  /** An item or paragraph without `<` or `>`; the list brackets hold no text. */
  predicate CleanTag(t: Tag)
  {
    (t.Item? || t.Para?) ==> '<' !in t.content && '>' !in t.content
  }

  predicate CleanElements(tags: seq<Tag>)
  {
    forall i :: 0 <= i < |tags| ==> CleanTag(tags[i])
  }

  lemma {:induction false} LineTagsClean(ks: seq<Line>)
    requires forall i :: 0 <= i < |ks| ==> '<' !in Content(ks[i]) && '>' !in Content(ks[i])
    decreases |ks|
    ensures CleanElements(LineTags(ks))
  {
    if |ks| > 0 {
      LineTagsClean(ks[1..]);
      var tags := LineTags(ks);
      forall i | 0 <= i < |tags|
        ensures CleanTag(tags[i])
      {
        if i > 0 {
          assert tags[i] == LineTags(ks[1..])[i - 1];
        }
      }
    }
  }

  // ---------------------------------------------------------------------------
  // Reading the HTML back

  /** The length of the longest prefix of `s` without a `<`. */
  function TextRun(s: string): (n: nat)
    decreases |s|
    ensures n <= |s|
  {
    if |s| == 0 || s[0] == '<' then 0 else 1 + TextRun(s[1..])
  }

  function Prepend(t: Tag, r: Option<seq<Tag>>): Option<seq<Tag>>
  {
    match r
    case Some(tags) => Some([t] + tags)
    case None => None
  }

  /** Reads a sequence of tags back from HTML; `None` for anything `formatTextToHTML` cannot produce. */
  function ParseTags(s: string): Option<seq<Tag>>
    decreases |s|
  {
    if |s| == 0 then Some([])
    else if IsPrefix("<ul>", s) then Prepend(OpenList, ParseTags(s[4..]))
    else if IsPrefix("</ul>", s) then Prepend(CloseList, ParseTags(s[5..]))
    else if IsPrefix("<li>", s) then
      var n := TextRun(s[4..]);
      var rest := s[4 + n..];
      if IsPrefix("</li>", rest) then Prepend(Item(s[4..4 + n]), ParseTags(rest[5..])) else None
    else if IsPrefix("<p>", s) then
      var n := TextRun(s[3..]);
      var rest := s[3 + n..];
      if IsPrefix("</p>", rest) then Prepend(Para(s[3..3 + n]), ParseTags(rest[4..])) else None
    else None
  }

  lemma {:induction false} TextRunStops(c: string, rest: string)
    requires '<' !in c
    requires |rest| > 0 && rest[0] == '<'
    decreases |c|
    ensures TextRun(c + rest) == |c|
  {
    if |c| > 0 {
      assert (c + rest)[1..] == c[1..] + rest;
      TextRunStops(c[1..], rest);
    }
  }

  /** Text behind a text-free run: after `<tag>` + `c`, the parser finds `c` and then `rest`. */
  lemma ReadContent(open: string, c: string, rest: string)
    requires '<' !in c
    requires |rest| > 0 && rest[0] == '<'
    ensures var s := open + c + rest;
      TextRun(s[|open|..]) == |c| && s[|open|..|open| + |c|] == c && s[|open| + |c|..] == rest
  {
    var s := open + c + rest;
    assert s[|open|..] == c + rest;
    TextRunStops(c, rest);
  }

  /** One rendered tag in front of further HTML is read back as that tag. */
  lemma ParseRender(t: Tag, rest: string)
    requires CleanTag(t)
    requires |rest| == 0 || rest[0] == '<'
    ensures ParseTags(Render(t) + rest) == Prepend(t, ParseTags(rest))
  {
    match t
    case OpenList => ParseOpen(rest);
    case CloseList => ParseClose(rest);
    case Item(c) => ParseItem(c, rest);
    case Para(c) => ParsePara(c, rest);
  }

  lemma ParseOpen(rest: string)
    ensures ParseTags("<ul>" + rest) == Prepend(OpenList, ParseTags(rest))
  {
    var s := "<ul>" + rest;
    assert s[..4] == "<ul>" && s[4..] == rest;
  }

  lemma ParseClose(rest: string)
    ensures ParseTags("</ul>" + rest) == Prepend(CloseList, ParseTags(rest))
  {
    var s := "</ul>" + rest;
    assert s[..5] == "</ul>" && s[5..] == rest;
    assert s[1] == '/';
  }

  lemma ParseItem(c: string, rest: string)
    requires '<' !in c
    requires |rest| == 0 || rest[0] == '<'
    ensures ParseTags("<li>" + c + "</li>" + rest) == Prepend(Item(c), ParseTags(rest))
  {
    var close := "</li>" + rest;
    var s := "<li>" + c + close;
    assert "<li>" + c + "</li>" + rest == s;
    ReadContent("<li>", c, close);
    assert s[..4] == "<li>" && s[1] == 'l';
    assert !IsPrefix("<ul>", s) && !IsPrefix("</ul>", s) && IsPrefix("<li>", s);
    var n := TextRun(s[4..]);
    assert n == |c| && s[4..4 + n] == c && s[4 + n..] == close;
    assert close[..5] == "</li>" && close[5..] == rest;
  }

  lemma ParsePara(c: string, rest: string)
    requires '<' !in c
    requires |rest| == 0 || rest[0] == '<'
    ensures ParseTags("<p>" + c + "</p>" + rest) == Prepend(Para(c), ParseTags(rest))
  {
    var close := "</p>" + rest;
    var s := "<p>" + c + close;
    assert "<p>" + c + "</p>" + rest == s;
    ReadContent("<p>", c, close);
    assert s[..3] == "<p>" && s[1] == 'p';
    assert !IsPrefix("<ul>", s) && !IsPrefix("</ul>", s) && !IsPrefix("<li>", s) && IsPrefix("<p>", s);
    var n := TextRun(s[3..]);
    assert n == |c| && s[3..3 + n] == c && s[3 + n..] == close;
    assert close[..4] == "</p>" && close[4..] == rest;
  }

  /** Every element's content is free of `<`, so the HTML reads back as exactly the tags. */
  lemma {:induction false} ParseRenderAll(tags: seq<Tag>)
    requires CleanElements(tags)
    decreases |tags|
    ensures ParseTags(Concat(RenderAll(tags))) == Some(tags)
  {
    if |tags| > 0 {
      var rest := Concat(RenderAll(tags[1..]));
      ParseRenderAll(tags[1..]);
      if |tags| > 1 {
        assert RenderAll(tags[1..])[0] == Render(tags[1]);
        assert Render(tags[1])[0] == '<';
        assert rest[0] == '<';
      }
      ParseRender(tags[0], rest);
      assert [tags[0]] + tags[1..] == tags;
    }
  }

  /**
   * What `formatTextToHTML` promises for a non-empty text: one element per
   * line of the escaped text in order, lists well formed, no `<` or `>`
   * inside any element, and HTML that reads back as exactly those tags.
   */
  lemma ToHtmlShape(text: string)
    requires |text| > 0
    ensures var ks := ClassifyAll(SplitLines(Esc(text)));
      && Elements(DocumentTags(text)) == LineTags(ks)
      && |Elements(DocumentTags(text))| == CountChar('\n', text) + 1
      && WellFormed(DocumentTags(text), false)
      && CleanElements(Elements(DocumentTags(text)))
      && ParseTags(ToHtml(text)) == Some(DocumentTags(text))
  {
    var e := Esc(text);
    var lines := SplitLines(e);
    var ks := ClassifyAll(lines);
    var tags := DocumentTags(text);
    MachineIsGrouping(ks);
    MachineElements(ks, false);
    MachineWellFormed(ks, false);
    EscClean(text);
    forall i | 0 <= i < |ks|
      ensures '<' !in Content(ks[i]) && '>' !in Content(ks[i])
    {
      ClassifyContent(lines[i]);
    }
    LineTagsClean(ks);
    ElementsContent(tags);
    ParseRenderAll(tags);
  }

  /** The list brackets hold no text, so the tags are clean when their elements are. */
  lemma {:induction false} ElementsContent(tags: seq<Tag>)
    requires CleanElements(Elements(tags))
    decreases |tags|
    ensures CleanElements(tags)
  {
    if |tags| > 0 {
      var head := if tags[0].Item? || tags[0].Para? then [tags[0]] else [];
      assert Elements(tags) == head + Elements(tags[1..]);
      assert CleanElements(Elements(tags[1..])) by {
        forall j | 0 <= j < |Elements(tags[1..])|
          ensures CleanTag(Elements(tags[1..])[j])
        {
          assert Elements(tags[1..])[j] == Elements(tags)[|head| + j];
        }
      }
      ElementsContent(tags[1..]);
      forall i | 0 <= i < |tags|
        ensures CleanTag(tags[i])
      {
        if i == 0 {
          if head != [] {
            assert Elements(tags)[0] == tags[0];
          }
        } else {
          assert tags[i] == tags[1..][i - 1];
        }
      }
    }
  }

  // ---------------------------------------------------------------------------
  // The method

  /** One step of the machine at line `i`. */
  lemma MachineAt(ks: seq<Line>, i: nat, inList: bool)
    requires i < |ks|
    ensures Machine(ks[i..], inList) == Step(ks[i], inList) + Machine(ks[i + 1..], ks[i].Bullet?)
  {
    assert ks[i..][0] == ks[i] && ks[i..][1..] == ks[i + 1..];
  }

  /** The pieces one line pushes onto `out`, and whether a list is open afterwards. */
  method EmitLine(line: string, inList: bool) returns (pieces: seq<string>, nowInList: bool)
    ensures pieces == RenderAll(Step(Classify(line), inList))
    ensures nowInList == Classify(line).Bullet?
  {
    var trimmed := Trim(line);
    pieces := [];
    if IsPrefix("- ", trimmed) || IsPrefix("* ", trimmed) {
      if !inList {
        pieces := pieces + ["<ul>"];
      }
      var item := Trim(trimmed[2..]);
      pieces := pieces + ["<li>" + item + "</li>"];
      nowInList := true;
      RenderPair(if inList then [] else [OpenList], Item(item));
    } else {
      if inList {
        pieces := pieces + ["</ul>"];
      }
      if trimmed == "" {
        EmptyParagraph();
        pieces := pieces + ["<p></p>"];
      } else {
        pieces := pieces + ["<p>" + trimmed + "</p>"];
      }
      nowInList := false;
      RenderPair(if inList then [CloseList] else [], Para(trimmed));
    }
  }

  lemma RenderPair(pre: seq<Tag>, t: Tag)
    requires |pre| <= 1
    ensures RenderAll(pre + [t]) == (if |pre| == 0 then [] else [Render(pre[0])]) + [Render(t)]
  {
    RenderAllSnoc(pre, t);
    if |pre| == 1 {
      assert RenderAll(pre) == [Render(pre[0])] + RenderAll([]);
    }
  }

  /**
   * `formatTextToHTML`: the empty text gives the empty string; otherwise the
   * concatenated pieces are exactly the rendering of the reference blocks.
   */
  method FormatTextToHtml(text: string) returns (html: string)
    ensures html == ToHtml(text)
  {
    if |text| == 0 {
      return "";
    }
    var lines := SplitLines(Esc(text));
    ghost var ks := ClassifyAll(lines);
    var inList := false;
    var out: seq<string> := [];
    ghost var tags: seq<Tag> := [];
    for i := 0 to |lines|
      invariant out == RenderAll(tags)
      invariant tags + Machine(ks[i..], inList) == Machine(ks, false)
    {
      var pieces, nowInList := EmitLine(lines[i], inList);
      ghost var step := Step(ks[i], inList);
      MachineAt(ks, i, inList);
      RenderAllAppend(tags, step);
      AppendAssoc(tags, step, Machine(ks[i + 1..], nowInList));
      out := out + pieces;
      tags := tags + step;
      inList := nowInList;
    }
    if inList {
      RenderAllSnoc(tags, CloseList);
      out := out + ["</ul>"];
      tags := tags + [CloseList];
    }
    html := Join("", out);
    MachineHtml(text, out, tags);
  }

  lemma {:induction false} RenderAllAppend(a: seq<Tag>, b: seq<Tag>)
    decreases |a|
    ensures RenderAll(a + b) == RenderAll(a) + RenderAll(b)
  {
    if |a| > 0 {
      assert (a + b)[1..] == a[1..] + b;
      RenderAllAppend(a[1..], b);
    } else {
      assert a + b == b;
    }
  }

  lemma EmptyParagraph()
    ensures Render(Para("")) == "<p></p>"
  {
    assert "<p>" + "" + "</p>" == "<p></p>";
  }

  lemma MachineHtml(text: string, out: seq<string>, tags: seq<Tag>)
    requires |text| > 0
    requires out == RenderAll(tags)
    requires tags == Machine(ClassifyAll(SplitLines(Esc(text))), false)
    ensures Join("", out) == ToHtml(text)
  {
    JoinEmptyIsConcat(out);
    MachineIsGrouping(ClassifyAll(SplitLines(Esc(text))));
  }
}
