/**
 * The placeholder rewriting of prefixr/prefixr.go. `Prefix` runs three
 * replace-all passes, one per placeholder syntax; each pass is a leftmost,
 * shortest-match scan for an opening literal, a body of at least one
 * character without a newline (the regular expression `.+?`) and a closing
 * literal, and replaces every match by the backtick-quoted, prefixed body.
 */
module Prefixr {
  import opened Wrappers
  import opened Text

  /** The replacement: the backtick-quoted prefixed name, without the underscore for an empty prefix. */
  function Identifier(prefix: string, name: string): string
  {
    if prefix == "" then "`" + name + "`" else "`" + prefix + "_" + name + "`"
  }

  /** `rest[..m]` can be a match's body: at least one character, no newline, and `close` right after it. */
  ghost predicate Body(rest: string, close: string, m: int)
  {
    1 <= m <= |rest| && (forall k :: 0 <= k < m ==> rest[k] != '\n') && StartsWith(rest[m..], close)
  }

  /** The lazy body scan, trying the body lengths from `j` on. */
  function FindClose(rest: string, close: string, j: nat): (r: Option<nat>)
    requires 1 <= j
    ensures r.Some? ==> j <= r.value <= |rest| && StartsWith(rest[r.value..], close)
    decreases |rest| + 1 - j
  {
    if j > |rest| || rest[j - 1] == '\n' then None
    else if StartsWith(rest[j..], close) then Some(j)
    else FindClose(rest, close, j + 1)
  }

  /** The scan finds the shortest body from `j` on, and finds none exactly when there is none. */
  lemma {:induction false} FindCloseSpec(rest: string, close: string, j: nat)
    requires 1 <= j && forall k :: 0 <= k < j - 1 && k < |rest| ==> rest[k] != '\n'
    ensures var r := FindClose(rest, close, j);
            && (r.Some? ==> Body(rest, close, r.value) && forall m :: j <= m < r.value ==> !Body(rest, close, m))
            && (r.None? ==> forall m :: j <= m ==> !Body(rest, close, m))
    decreases |rest| + 1 - j
  {
    if j <= |rest| && rest[j - 1] != '\n' && !StartsWith(rest[j..], close) {
      FindCloseSpec(rest, close, j + 1);
    }
  }

  /** The body length of the match that starts at the front of `s`, if one does. */
  function MatchAt(s: string, open: string, close: string): (r: Option<nat>)
    ensures r.Some? ==> 1 <= r.value && |open| + r.value + |close| <= |s|
  {
    if StartsWith(s, open) then FindClose(s[|open|..], close, 1) else None
  }

  /** A match starts at the front exactly when `open` does and a body follows it, and its body is the shortest. */
  lemma MatchAtSpec(s: string, open: string, close: string)
    ensures var r := MatchAt(s, open, close);
            && (r.Some? <==> StartsWith(s, open) && exists m :: Body(s[|open|..], close, m))
            && (r.Some? ==> Body(s[|open|..], close, r.value)
                            && forall m :: 1 <= m < r.value ==> !Body(s[|open|..], close, m))
  {
    if StartsWith(s, open) {
      FindCloseSpec(s[|open|..], close, 1);
    }
  }

  /** `ReplaceAllStringFunc` with one pattern: matches replaced left to right, everything else copied. */
  function Pass(s: string, open: string, close: string, prefix: string): string
    decreases |s|
  {
    if s == [] then []
    else
      var (out, used) := Step(s, open, close, prefix);
      out + Pass(s[used..], open, close, prefix)
  }

  /** One step of a pass: the replacement of the match at the front, or the first character. */
  function Step(s: string, open: string, close: string, prefix: string): (r: (string, nat))
    requires s != []
    ensures 1 <= r.1 <= |s|
  {
    var m := MatchAt(s, open, close);
    if m.Some? then (Identifier(prefix, s[|open|..|open| + m.value]), |open| + m.value + |close|)
    else ([s[0]], 1)
  }

  const InnerOpen := "{{pf:`"
  const InnerClose := "`}}"
  const QuotedOpen := "`{{pf:"
  const QuotedClose := "}}`"
  const BareOpen := "{{pf:"
  const BareClose := "}}"

  /**
   * `Prefixr`: a prefix kept for several queries. Its `Prefix` runs the three
   * passes in order: the backtick-inside form, the pre-quoted form, the bare form.
   */
  datatype Prefixr = Prefixr(prefixString: string) {
    function Prefix(query: string): string
    {
      var p := prefixString;
      Pass(Pass(Pass(query, InnerOpen, InnerClose, p), QuotedOpen, QuotedClose, p), BareOpen, BareClose, p)
    }
  }

  /** The package function `Prefix(prefix, query)`, the same rewrite as a `Prefixr` holding `prefix`. */
  function Prefix(prefix: string, query: string): string
  {
    Prefixr(prefix).Prefix(query)
  }

  // ---------------------------------------------------------------------------
  // Text that a pass leaves alone

  lemma NotStartsAt(s: string, k: nat, open: string, d: nat)
    requires k <= |s| && d < |open| && (k + d >= |s| || s[k + d] != open[d])
    ensures !StartsWith(s[k..], open)
  {
  }

  lemma PassCopy(s: string, open: string, close: string, prefix: string, after: string)
    requires s != [] && !StartsWith(s, open) && s[1..] == after
    ensures Pass(s, open, close, prefix) == [s[0]] + Pass(after, open, close, prefix)
  {
    var st := Step(s, open, close, prefix);
    assert st == ([s[0]], 1);
    assert Pass(s, open, close, prefix) == st.0 + Pass(s[st.1..], open, close, prefix);
  }

  /** A pass copies text in which no match can start. */
  lemma {:induction false} PassSkip(t: string, r: string, open: string, close: string, prefix: string)
    requires forall k :: 0 <= k < |t| ==> !StartsWith((t + r)[k..], open)
    ensures Pass(t + r, open, close, prefix) == t + Pass(r, open, close, prefix)
    decreases |t|
  {
    if t == [] {
      assert t + r == r;
    } else {
      var s := t + r;
      assert s[0..] == s;
      assert s[1..] == t[1..] + r;
      PassCopy(s, open, close, prefix, t[1..] + r);
      forall k | 0 <= k < |t[1..]| ensures !StartsWith((t[1..] + r)[k..], open) {
        assert (t[1..] + r)[k..] == s[k + 1..];
      }
      PassSkip(t[1..], r, open, close, prefix);
      assert [t[0]] + (t[1..] + Pass(r, open, close, prefix)) == t + Pass(r, open, close, prefix);
    }
  }

  /** A pass copies text without the first character of its opening literal. */
  lemma PassSkipChar(t: string, r: string, open: string, close: string, prefix: string)
    requires |open| >= 1 && forall k :: 0 <= k < |t| ==> t[k] != open[0]
    ensures Pass(t + r, open, close, prefix) == t + Pass(r, open, close, prefix)
  {
    forall k | 0 <= k < |t| ensures !StartsWith((t + r)[k..], open) {
      NotStartsAt(t + r, k, open, 0);
    }
    PassSkip(t, r, open, close, prefix);
  }

  /** The scan of a body that holds neither a newline nor the closing literal's first character. */
  lemma {:induction false} FindCloseAt(n: string, close: string, r: string, j: nat)
    requires 1 <= j <= |n| && |close| >= 1
    requires forall k :: 0 <= k < |n| ==> n[k] != '\n' && n[k] != close[0]
    ensures FindClose(n + close + r, close, j) == Some(|n|)
    decreases |n| - j
  {
    var rest := n + close + r;
    assert rest[j - 1] == n[j - 1];
    if j < |n| {
      NotStartsAt(rest, j, close, 0);
      FindCloseAt(n, close, r, j + 1);
    } else {
      assert rest[j..][..|close|] == close;
    }
  }

  lemma PassMatch(s: string, open: string, close: string, prefix: string, n: nat, body: string, after: string)
    requires MatchAt(s, open, close) == Some(n)
    requires s[|open|..|open| + n] == body && s[|open| + n + |close|..] == after
    ensures Pass(s, open, close, prefix) == Identifier(prefix, body) + Pass(after, open, close, prefix)
  {
    var st := Step(s, open, close, prefix);
    assert st == (Identifier(prefix, body), |open| + n + |close|);
    assert Pass(s, open, close, prefix) == st.0 + Pass(s[st.1..], open, close, prefix);
  }

  /** A placeholder at the front is replaced by its identifier and the pass goes on after it. */
  lemma PassPlaceholder(open: string, n: string, close: string, r: string, prefix: string)
    requires |n| >= 1 && |close| >= 1
    requires forall k :: 0 <= k < |n| ==> n[k] != '\n' && n[k] != close[0]
    ensures Pass(open + n + close + r, open, close, prefix) == Identifier(prefix, n) + Pass(r, open, close, prefix)
  {
    MatchPlaceholder(open, n, close, r);
    PlaceholderSlices(open, n, close, r);
    PassMatch(open + n + close + r, open, close, prefix, |n|, n, r);
  }

  lemma PlaceholderSlices(open: string, n: string, close: string, r: string)
    ensures (open + n + close + r)[|open|..|open| + |n|] == n
    ensures (open + n + close + r)[|open| + |n| + |close|..] == r
  {
  }

  /** A placeholder at the front is a match whose body is the placeholder's name. */
  lemma MatchPlaceholder(open: string, n: string, close: string, r: string)
    requires |n| >= 1 && |close| >= 1
    requires forall k :: 0 <= k < |n| ==> n[k] != '\n' && n[k] != close[0]
    ensures MatchAt(open + n + close + r, open, close) == Some(|n|)
  {
    var s := open + n + close + r;
    assert s[..|open|] == open;
    assert s[|open|..] == n + close + r;
    FindCloseAt(n, close, r, 1);
  }

  // ---------------------------------------------------------------------------
  // Queries written as text and placeholders

  /** A piece of a query: plain text, or a placeholder in one of the three forms. */
  datatype Piece = Text(text: string) | Bare(name: string) | Quoted(name: string) | Inner(name: string)

  datatype Form = InnerForm | QuotedForm | BareForm

  function FormOf(x: Piece): Option<Form>
  {
    match x
    case Text(_) => None
    case Bare(_) => Some(BareForm)
    case Quoted(_) => Some(QuotedForm)
    case Inner(_) => Some(InnerForm)
  }

  /** A piece as written, or as its identifier once its form has been rewritten. */
  function Stage(prefix: string, x: Piece, done: set<Form>): string
  {
    match x
    case Text(t) => t
    case Bare(n) => if BareForm in done then Identifier(prefix, n) else BareOpen + n + BareClose
    case Quoted(n) => if QuotedForm in done then Identifier(prefix, n) else QuotedOpen + n + QuotedClose
    case Inner(n) => if InnerForm in done then Identifier(prefix, n) else InnerOpen + n + InnerClose
  }

  /** The query with the forms in `done` rewritten and the others as written. */
  function Staged(prefix: string, ps: seq<Piece>, done: set<Form>): string
    decreases |ps|
  {
    if ps == [] then "" else Stage(prefix, ps[0], done) + Staged(prefix, ps[1..], done)
  }

  /** A piece as written. */
  function PieceText(x: Piece): string
  {
    match x
    case Text(t) => t
    case Bare(n) => BareOpen + n + BareClose
    case Quoted(n) => QuotedOpen + n + QuotedClose
    case Inner(n) => InnerOpen + n + InnerClose
  }

  /** The query as written. */
  function Source(ps: seq<Piece>): string
    decreases |ps|
  {
    if ps == [] then "" else PieceText(ps[0]) + Source(ps[1..])
  }

  /** The intended result: every placeholder replaced by its prefixed identifier. */
  function Target(prefix: string, ps: seq<Piece>): string
  {
    Staged(prefix, ps, {InnerForm, QuotedForm, BareForm})
  }

  predicate NameChar(c: char)
  {
    c != '{' && c != '}' && c != '`' && c != '\n'
  }

  /** A piece whose rewritten form ends in a backtick: a placeholder, or text whose last character is one. */
  predicate EndsTick(x: Piece)
  {
    !x.Text? || (x.text != "" && x.text[|x.text| - 1] == '`')
  }

  /**
   * The queries the rewrite is meant for: a prefix without `{`, plain text
   * without `{`, non-empty placeholder names without braces, backticks or
   * newlines, and after a placeholder or a text ending in a backtick neither
   * a bare placeholder nor empty text. A backtick right before a bare
   * placeholder would be read by the pre-quoted pass as the start of
   * `` `{{pf:`` and rewritten with the wrong extent.
   */
  ghost predicate Template(prefix: string, ps: seq<Piece>)
  {
    && (forall k :: 0 <= k < |prefix| ==> prefix[k] != '{')
    && (forall i :: 0 <= i < |ps| ==> ValidPiece(ps[i]))
    && (forall i :: 0 <= i < |ps| - 1 && EndsTick(ps[i]) ==> !ps[i + 1].Bare? && ps[i + 1] != Text(""))
  }

  ghost predicate ValidPiece(x: Piece)
  {
    if x.Text? then forall k :: 0 <= k < |x.text| ==> x.text[k] != '{'
    else |x.name| >= 1 && forall k :: 0 <= k < |x.name| ==> NameChar(x.name[k])
  }

  lemma TemplateTail(prefix: string, ps: seq<Piece>)
    requires ps != [] && Template(prefix, ps)
    ensures Template(prefix, ps[1..])
  {
    forall i | 0 <= i < |ps[1..]| ensures ValidPiece(ps[1..][i]) {
      assert ps[1..][i] == ps[i + 1];
    }
    forall i | 0 <= i < |ps[1..]| - 1 && EndsTick(ps[1..][i])
      ensures !ps[1..][i + 1].Bare? && ps[1..][i + 1] != Text("")
    {
      assert ps[1..][i] == ps[i + 1] && ps[1..][i + 1] == ps[i + 2];
    }
  }

  /** An identifier holds no `{` when neither the prefix nor the name does. */
  lemma IdentifierNoBrace(prefix: string, n: string)
    requires forall k :: 0 <= k < |prefix| ==> prefix[k] != '{'
    requires forall k :: 0 <= k < |n| ==> n[k] != '{'
    ensures var id := Identifier(prefix, n); forall k :: 0 <= k < |id| ==> id[k] != '{'
  {
    var id := Identifier(prefix, n);
    forall k | 0 <= k < |id| ensures id[k] != '{' {
      if prefix == "" {
        assert id == "`" + n + "`";
        if 1 <= k <= |n| { assert id[k] == n[k - 1]; }
      } else {
        assert id == "`" + prefix + "_" + n + "`";
        if 1 <= k <= |prefix| { assert id[k] == prefix[k - 1]; }
        if |prefix| + 2 <= k <= |prefix| + 1 + |n| { assert id[k] == n[k - |prefix| - 2]; }
      }
    }
  }

  /**
   * The pre-quoted pass leaves text without `{` alone, an identifier or plain
   * text, when a final backtick is not followed by `{`: no backtick in it is
   * then followed by `{{pf:`.
   */
  lemma QuotedPassSkips(t: string, r: string, prefix: string)
    requires forall k :: 0 <= k < |t| ==> t[k] != '{'
    requires t != [] && t[|t| - 1] == '`' ==> r == [] || r[0] != '{'
    ensures Pass(t + r, QuotedOpen, QuotedClose, prefix) == t + Pass(r, QuotedOpen, QuotedClose, prefix)
  {
    var s := t + r;
    forall k | 0 <= k < |t| ensures !StartsWith(s[k..], QuotedOpen) {
      if t[k] == '`' {
        if k + 1 < |t| {
          assert s[k + 1] == t[k + 1];
        } else if k + 1 < |s| {
          assert s[k + 1] == r[0];
        }
        NotStartsAt(s, k, QuotedOpen, 1);
      } else {
        NotStartsAt(s, k, QuotedOpen, 0);
      }
    }
    PassSkip(t, r, QuotedOpen, QuotedClose, prefix);
  }

  /** The backtick-inside pass leaves a bare placeholder alone: its name does not start with a backtick. */
  lemma InnerPassSkipsBare(n: string, r: string, prefix: string)
    requires |n| >= 1 && forall k :: 0 <= k < |n| ==> NameChar(n[k])
    ensures Pass(BareOpen + n + BareClose + r, InnerOpen, InnerClose, prefix)
            == BareOpen + n + BareClose + Pass(r, InnerOpen, InnerClose, prefix)
  {
    var t := BareOpen + n + BareClose;
    var s := t + r;
    forall k | 0 <= k < |t| ensures !StartsWith(s[k..], InnerOpen) {
      if k == 0 {
        assert s[5] == n[0];
        NotStartsAt(s, k, InnerOpen, 5);
      } else if k == 1 {
        assert s[2] == 'p';
        NotStartsAt(s, k, InnerOpen, 1);
      } else {
        if 5 <= k < 5 + |n| { assert s[k] == n[k - 5]; }
        NotStartsAt(s, k, InnerOpen, 0);
      }
    }
    PassSkip(t, r, InnerOpen, InnerClose, prefix);
  }

  /** The backtick-inside pass leaves a pre-quoted placeholder alone. */
  lemma InnerPassSkipsQuoted(n: string, r: string, prefix: string)
    requires |n| >= 1 && forall k :: 0 <= k < |n| ==> NameChar(n[k])
    ensures Pass(QuotedOpen + n + QuotedClose + r, InnerOpen, InnerClose, prefix)
            == QuotedOpen + n + QuotedClose + Pass(r, InnerOpen, InnerClose, prefix)
  {
    var t := QuotedOpen + n + QuotedClose;
    var s := t + r;
    forall k | 0 <= k < |t| ensures !StartsWith(s[k..], InnerOpen) {
      if k == 1 {
        assert s[6] == n[0];
        NotStartsAt(s, k, InnerOpen, 5);
      } else if k == 2 {
        assert s[3] == 'p';
        NotStartsAt(s, k, InnerOpen, 1);
      } else {
        if 6 <= k < 6 + |n| { assert s[k] == n[k - 6]; }
        NotStartsAt(s, k, InnerOpen, 0);
      }
    }
    PassSkip(t, r, InnerOpen, InnerClose, prefix);
  }

  /** The literals of each form, and the forms rewritten before it. */
  function Open(f: Form): string
  {
    match f
    case InnerForm => InnerOpen
    case QuotedForm => QuotedOpen
    case BareForm => BareOpen
  }

  function Close(f: Form): string
  {
    match f
    case InnerForm => InnerClose
    case QuotedForm => QuotedClose
    case BareForm => BareClose
  }

  function Before(f: Form): set<Form>
  {
    match f
    case InnerForm => {}
    case QuotedForm => {InnerForm}
    case BareForm => {InnerForm, QuotedForm}
  }

  lemma {:induction false} SourceStaged(prefix: string, ps: seq<Piece>)
    ensures Source(ps) == Staged(prefix, ps, {})
    decreases |ps|
  {
    if ps != [] {
      SourceStaged(prefix, ps[1..]);
    }
  }

  /**
   * After the backtick-inside pass, a query that starts with neither a bare
   * placeholder nor empty text does not start with `{`.
   */
  lemma StagedHead(prefix: string, ps: seq<Piece>)
    requires ps != [] && ValidPiece(ps[0]) && !ps[0].Bare? && ps[0] != Text("")
    ensures var q := Staged(prefix, ps, {InnerForm}); q != [] && q[0] != '{'
  {
    var h := Stage(prefix, ps[0], {InnerForm});
    assert h != [] && h[0] != '{';
    assert Staged(prefix, ps, {InnerForm}) == h + Staged(prefix, ps[1..], {InnerForm});
  }

  /** The bare form holds no backtick when its name holds none. */
  lemma BareNoBacktick(n: string)
    requires forall k :: 0 <= k < |n| ==> NameChar(n[k])
    ensures var t := BareOpen + n + BareClose; forall k :: 0 <= k < |t| ==> t[k] != '`'
  {
    var t := BareOpen + n + BareClose;
    forall k | 0 <= k < |t| ensures t[k] != '`' {
      if 5 <= k < 5 + |n| { assert t[k] == n[k - 5]; }
    }
  }

  /** One pass over one piece followed by the rest of the query `r`. */
  lemma PassPiece(prefix: string, x: Piece, r: string, f: Form)
    requires ValidPiece(x) && forall k :: 0 <= k < |prefix| ==> prefix[k] != '{'
    requires f == QuotedForm && EndsTick(x) ==> r == [] || r[0] != '{'
    ensures Pass(Stage(prefix, x, Before(f)) + r, Open(f), Close(f), prefix)
            == Stage(prefix, x, Before(f) + {f}) + Pass(r, Open(f), Close(f), prefix)
  {
    match x
    case Text(_) => PassText(prefix, x, r, f);
    case Inner(_) => PassInner(prefix, x, r, f);
    case Quoted(_) => PassQuoted(prefix, x, r, f);
    case Bare(_) => PassBare(prefix, x, r, f);
  }

  lemma PassText(prefix: string, x: Piece, r: string, f: Form)
    requires x.Text? && ValidPiece(x) && forall k :: 0 <= k < |prefix| ==> prefix[k] != '{'
    requires f == QuotedForm && EndsTick(x) ==> r == [] || r[0] != '{'
    ensures Pass(Stage(prefix, x, Before(f)) + r, Open(f), Close(f), prefix)
            == Stage(prefix, x, Before(f) + {f}) + Pass(r, Open(f), Close(f), prefix)
  {
    if f == QuotedForm {
      QuotedPassSkips(x.text, r, prefix);
    } else {
      PassSkipChar(x.text, r, Open(f), Close(f), prefix);
    }
  }

  lemma PassInner(prefix: string, x: Piece, r: string, f: Form)
    requires x.Inner? && ValidPiece(x) && forall k :: 0 <= k < |prefix| ==> prefix[k] != '{'
    requires f == QuotedForm && EndsTick(x) ==> r == [] || r[0] != '{'
    ensures Pass(Stage(prefix, x, Before(f)) + r, Open(f), Close(f), prefix)
            == Stage(prefix, x, Before(f) + {f}) + Pass(r, Open(f), Close(f), prefix)
  {
    var n := x.name;
    if f == InnerForm {
      PassPlaceholder(InnerOpen, n, InnerClose, r, prefix);
    } else {
      IdentifierNoBrace(prefix, n);
      if f == QuotedForm {
        QuotedPassSkips(Identifier(prefix, n), r, prefix);
      } else {
        PassSkipChar(Identifier(prefix, n), r, BareOpen, BareClose, prefix);
      }
    }
  }

  lemma PassQuoted(prefix: string, x: Piece, r: string, f: Form)
    requires x.Quoted? && ValidPiece(x) && forall k :: 0 <= k < |prefix| ==> prefix[k] != '{'
    requires f == QuotedForm && EndsTick(x) ==> r == [] || r[0] != '{'
    ensures Pass(Stage(prefix, x, Before(f)) + r, Open(f), Close(f), prefix)
            == Stage(prefix, x, Before(f) + {f}) + Pass(r, Open(f), Close(f), prefix)
  {
    var n := x.name;
    if f == InnerForm {
      InnerPassSkipsQuoted(n, r, prefix);
    } else if f == QuotedForm {
      PassPlaceholder(QuotedOpen, n, QuotedClose, r, prefix);
    } else {
      IdentifierNoBrace(prefix, n);
      PassSkipChar(Identifier(prefix, n), r, BareOpen, BareClose, prefix);
    }
  }

  lemma PassBare(prefix: string, x: Piece, r: string, f: Form)
    requires x.Bare? && ValidPiece(x) && forall k :: 0 <= k < |prefix| ==> prefix[k] != '{'
    requires f == QuotedForm && EndsTick(x) ==> r == [] || r[0] != '{'
    ensures Pass(Stage(prefix, x, Before(f)) + r, Open(f), Close(f), prefix)
            == Stage(prefix, x, Before(f) + {f}) + Pass(r, Open(f), Close(f), prefix)
  {
    var n := x.name;
    if f == InnerForm {
      InnerPassSkipsBare(n, r, prefix);
    } else if f == QuotedForm {
      BareNoBacktick(n);
      PassSkipChar(BareOpen + n + BareClose, r, QuotedOpen, QuotedClose, prefix);
    } else {
      PassPlaceholder(BareOpen, n, BareClose, r, prefix);
    }
  }

  /** Each pass rewrites exactly its own form, whatever the earlier passes left. */
  lemma {:induction false} PassStage(prefix: string, ps: seq<Piece>, f: Form)
    requires Template(prefix, ps)
    ensures Pass(Staged(prefix, ps, Before(f)), Open(f), Close(f), prefix) == Staged(prefix, ps, Before(f) + {f})
    decreases |ps|
  {
    var done := Before(f);
    if ps != [] {
      var r := Staged(prefix, ps[1..], done);
      TemplateTail(prefix, ps);
      PassStage(prefix, ps[1..], f);
      if f == QuotedForm && EndsTick(ps[0]) && |ps| > 1 {
        StagedHead(prefix, ps[1..]);
      }
      PassPiece(prefix, ps[0], r, f);
    }
  }

  /**
   * The template theorem: on a query built from text and placeholders,
   * `Prefix` replaces every placeholder, in each of the three forms, by its
   * backtick-quoted prefixed name and leaves the text alone.
   */
  lemma PrefixTemplate(prefix: string, ps: seq<Piece>)
    requires Template(prefix, ps)
    ensures Prefix(prefix, Source(ps)) == Target(prefix, ps)
  {
    SourceStaged(prefix, ps);
    PassStage(prefix, ps, InnerForm);
    assert Before(InnerForm) + {InnerForm} == Before(QuotedForm);
    PassStage(prefix, ps, QuotedForm);
    assert Before(QuotedForm) + {QuotedForm} == Before(BareForm);
    PassStage(prefix, ps, BareForm);
    assert Before(BareForm) + {BareForm} == {InnerForm, QuotedForm, BareForm};
  }

  /** A pass leaves a query alone when no match starts anywhere in it. */
  lemma {:induction false} PassUnmatched(s: string, open: string, close: string, prefix: string)
    requires forall k :: 0 <= k < |s| ==> MatchAt(s[k..], open, close).None?
    ensures Pass(s, open, close, prefix) == s
    decreases |s|
  {
    if s != [] {
      assert s[0..] == s;
      forall k | 0 <= k < |s[1..]| ensures MatchAt(s[1..][k..], open, close).None? {
        assert s[1..][k..] == s[k + 1..];
      }
      PassUnmatched(s[1..], open, close, prefix);
      var st := Step(s, open, close, prefix);
      assert st == ([s[0]], 1);
      assert Pass(s, open, close, prefix) == st.0 + Pass(s[st.1..], open, close, prefix);
    }
  }

  /** A match of ``{{pf:`name`}}`` is also a match of `{{pf:…}}`, with the backticks in its body. */
  lemma InnerMatchIsBare(s: string)
    requires MatchAt(s, InnerOpen, InnerClose).Some?
    ensures MatchAt(s, BareOpen, BareClose).Some?
  {
    MatchAtSpec(s, InnerOpen, InnerClose);
    var m := MatchAt(s, InnerOpen, InnerClose).value;
    var rest := s[|InnerOpen|..];
    var body := s[|BareOpen|..];
    assert s[..5] == s[..6][..5];
    assert body[1..] == rest;
    forall k | 0 <= k < m + 2 ensures body[k] != '\n' {
      if k == 0 {
        assert body[0] == s[..6][5];
      } else {
        assert body[k] == rest[k - 1];
      }
    }
    assert body[m + 2..] == rest[m + 1..];
    assert rest[m + 1..][..2] == rest[m..][..3][1..];
    assert Body(body, BareClose, m + 2);
    MatchAtSpec(s, BareOpen, BareClose);
  }

  /** A match of `` `{{pf:name}}` `` holds a match of `{{pf:…}}` one character on. */
  lemma QuotedMatchIsBare(s: string)
    requires MatchAt(s, QuotedOpen, QuotedClose).Some?
    ensures |s| > 1 && MatchAt(s[1..], BareOpen, BareClose).Some?
  {
    MatchAtSpec(s, QuotedOpen, QuotedClose);
    var m := MatchAt(s, QuotedOpen, QuotedClose).value;
    var t := s[1..];
    assert t[..5] == s[..6][1..];
    assert t[|BareOpen|..] == s[|QuotedOpen|..];
    assert Body(t[|BareOpen|..], BareClose, m);
    MatchAtSpec(t, BareOpen, BareClose);
  }

  /**
   * A query in which `{{pf:…}}` matches nowhere comes back unchanged, for
   * every prefix: the other two forms could only match where it does.
   */
  lemma PrefixWithoutPlaceholders(prefix: string, query: string)
    requires forall k :: 0 <= k < |query| ==> MatchAt(query[k..], BareOpen, BareClose).None?
    ensures Prefix(prefix, query) == query
  {
    forall k | 0 <= k < |query| ensures MatchAt(query[k..], InnerOpen, InnerClose).None? {
      if MatchAt(query[k..], InnerOpen, InnerClose).Some? {
        InnerMatchIsBare(query[k..]);
      }
    }
    PassUnmatched(query, InnerOpen, InnerClose, prefix);
    forall k | 0 <= k < |query| ensures MatchAt(query[k..], QuotedOpen, QuotedClose).None? {
      if MatchAt(query[k..], QuotedOpen, QuotedClose).Some? {
        assert k + 1 < |query| ==> query[k..][1..] == query[k + 1..];
        QuotedMatchIsBare(query[k..]);
      }
    }
    PassUnmatched(query, QuotedOpen, QuotedClose, prefix);
    PassUnmatched(query, BareOpen, BareClose, prefix);
  }

  // ---------------------------------------------------------------------------
  // The query of prefixr/prefixr_test.go

  /** Text, a bare placeholder, text, a pre-quoted one, text, a backtick-inside one, text. */
  function ExampleShape(t0: string, a: string, t1: string, b: string, t2: string, c: string, t3: string): seq<Piece>
  {
    [Text(t0), Bare(a), Text(t1), Quoted(b), Text(t2), Inner(c), Text(t3)]
  }

  /** Text without `{`, written so that it can be checked on a literal. */
  predicate PlainText(t: string)
  {
    '{' !in t
  }

  /** A placeholder name without braces, backticks or newlines, written so that it can be checked on a literal. */
  predicate PlainName(n: string)
  {
    |n| >= 1 && '{' !in n && '}' !in n && '`' !in n && '\n' !in n
  }

  /** Every query of that shape whose first text does not end in a backtick is a template query. */
  lemma ExampleShapeTemplate(prefix: string, t0: string, a: string, t1: string, b: string, t2: string, c: string, t3: string)
    requires forall k :: 0 <= k < |prefix| ==> prefix[k] != '{'
    requires PlainText(t0) && PlainText(t1) && PlainText(t2) && PlainText(t3) && t1 != "" && t2 != "" && t3 != ""
    requires t0 == "" || t0[|t0| - 1] != '`'
    requires PlainName(a) && PlainName(b) && PlainName(c)
    ensures Template(prefix, ExampleShape(t0, a, t1, b, t2, c, t3))
  {
    var ps := ExampleShape(t0, a, t1, b, t2, c, t3);
    forall i | 0 <= i < |ps| ensures ValidPiece(ps[i]) {
      if ps[i].Text? {
        forall k | 0 <= k < |ps[i].text| ensures ps[i].text[k] != '{' { assert ps[i].text[k] in ps[i].text; }
      } else {
        forall k | 0 <= k < |ps[i].name| ensures NameChar(ps[i].name[k]) { assert ps[i].name[k] in ps[i].name; }
      }
    }
    assert !EndsTick(ps[0]);
  }

  /** The intended result on that shape: the three identifiers between the texts. */
  lemma ExampleShapeTarget(prefix: string, t0: string, a: string, t1: string, b: string, t2: string, c: string, t3: string)
    ensures Target(prefix, ExampleShape(t0, a, t1, b, t2, c, t3))
            == t0 + (Identifier(prefix, a) + (t1 + (Identifier(prefix, b) + (t2 + (Identifier(prefix, c) + t3)))))
  {
    var all := {InnerForm, QuotedForm, BareForm};
    var ps := ExampleShape(t0, a, t1, b, t2, c, t3);
    var r6 := Staged(prefix, ps[6..], all);
    assert r6 == t3 by {
      var e := ps[6..];
      assert e == [Text(t3)] && e[1..] == [];
      assert Staged(prefix, e, all) == Stage(prefix, e[0], all) + Staged(prefix, e[1..], all);
      assert t3 + "" == t3;
    }
    var r5 := Staged(prefix, ps[5..], all);
    assert r5 == Identifier(prefix, c) + r6 by { assert ps[5..][0] == Inner(c) && ps[5..][1..] == ps[6..]; }
    var r4 := Staged(prefix, ps[4..], all);
    assert r4 == t2 + r5 by { assert ps[4..][0] == Text(t2) && ps[4..][1..] == ps[5..]; }
    var r3 := Staged(prefix, ps[3..], all);
    assert r3 == Identifier(prefix, b) + r4 by { assert ps[3..][0] == Quoted(b) && ps[3..][1..] == ps[4..]; }
    var r2 := Staged(prefix, ps[2..], all);
    assert r2 == t1 + r3 by { assert ps[2..][0] == Text(t1) && ps[2..][1..] == ps[3..]; }
    var r1 := Staged(prefix, ps[1..], all);
    assert r1 == Identifier(prefix, a) + r2 by { assert ps[1..][0] == Bare(a) && ps[1..][1..] == ps[2..]; }
    assert Target(prefix, ps) == t0 + r1;
  }

  /** The query of the package test. */
  function ExamplePieces(): seq<Piece>
  {
    ExampleShape("SELECT * FROM ", "blog", ".users JOIN ", "reporing", ".reports JOIN ", "schemas", " JOIN other")
  }

  /** The package test's query is a template query for every prefix without `{`. */
  lemma ExampleTemplate(prefix: string)
    requires forall k :: 0 <= k < |prefix| ==> prefix[k] != '{'
    ensures Template(prefix, ExamplePieces())
  {
    ExampleTexts();
    ExampleNames();
    ExampleShapeTemplate(prefix, "SELECT * FROM ", "blog", ".users JOIN ", "reporing", ".reports JOIN ", "schemas", " JOIN other");
  }

  /**
   * The package test's query is rewritten, for every prefix without `{`, into
   * its texts with the three prefixed identifiers between them; the prefixes
   * `this-is-my-prefix` and the empty one are two of them.
   */
  lemma ExampleRewrite(prefix: string)
    requires forall k :: 0 <= k < |prefix| ==> prefix[k] != '{'
    ensures Prefix(prefix, Source(ExamplePieces()))
            == "SELECT * FROM " + (Identifier(prefix, "blog") + (".users JOIN " + (Identifier(prefix, "reporing")
               + (".reports JOIN " + (Identifier(prefix, "schemas") + " JOIN other")))))
  {
    ExampleTemplate(prefix);
    PrefixTemplate(prefix, ExamplePieces());
    ExampleShapeTarget(prefix, "SELECT * FROM ", "blog", ".users JOIN ", "reporing", ".reports JOIN ", "schemas", " JOIN other");
  }

  lemma ExampleTexts()
    ensures PlainText("SELECT * FROM ") && PlainText(".users JOIN ") && PlainText(".reports JOIN ") && PlainText(" JOIN other")
  {
  }

  lemma ExampleNames()
    ensures PlainName("blog") && PlainName("reporing") && PlainName("schemas")
  {
  }

  /** Text before a bare placeholder is kept, backticks included, unless its last character is one. */
  lemma TextThenBare(prefix: string, t: string, n: string)
    requires forall k :: 0 <= k < |prefix| ==> prefix[k] != '{'
    requires PlainText(t) && (t == "" || t[|t| - 1] != '`') && PlainName(n)
    ensures Prefix(prefix, Source([Text(t), Bare(n)])) == t + Identifier(prefix, n)
  {
    var ps := [Text(t), Bare(n)];
    assert ValidPiece(ps[0]) by {
      forall k | 0 <= k < |t| ensures t[k] != '{' { assert t[k] in t; }
    }
    assert ValidPiece(ps[1]) by {
      forall k | 0 <= k < |n| ensures NameChar(n[k]) { assert n[k] in n; }
    }
    assert !EndsTick(ps[0]);
    PrefixTemplate(prefix, ps);
    var all := {InnerForm, QuotedForm, BareForm};
    assert ps[1..] == [Bare(n)] && ps[1..][1..] == [];
    assert Staged(prefix, ps[1..], all) == Identifier(prefix, n) + "";
  }

  /** ``SELECT `id` FROM {{pf:blog}}`` gets only its placeholder rewritten. */
  lemma QuotedTextRewrite(prefix: string)
    requires forall k :: 0 <= k < |prefix| ==> prefix[k] != '{'
    ensures Prefix(prefix, Source([Text("SELECT `id` FROM "), Bare("blog")])) == "SELECT `id` FROM " + Identifier(prefix, "blog")
  {
    QuotedTextParts();
    TextThenBare(prefix, "SELECT `id` FROM ", "blog");
  }

  lemma QuotedTextParts()
    ensures PlainText("SELECT `id` FROM ") && "SELECT `id` FROM "[16] != '`' && PlainName("blog")
  {
  }

  /** `Prefixr.Prefix` rewrites a template query with the prefix it holds. */
  lemma PrefixrTemplate(pr: Prefixr, ps: seq<Piece>)
    requires Template(pr.prefixString, ps)
    ensures pr.Prefix(Source(ps)) == Target(pr.prefixString, ps)
  {
    PrefixTemplate(pr.prefixString, ps);
  }

  /** A `Prefixr` holding `prefix` rewrites exactly as `Prefix(prefix, ·)` does. */
  lemma PrefixrDelegates(prefix: string, query: string)
    ensures Prefixr(prefix).Prefix(query) == Prefix(prefix, query)
  {
  }
}
