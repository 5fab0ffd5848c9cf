/**
 * The build step that inlines the pthread worker script into the Emscripten
 * runtime script (`tools/inline_worker.py`): the worker text is escaped for
 * a JavaScript template literal, and every `locateFile('<module>.worker.js')`
 * of the runtime script becomes a Blob URL built from that literal. File
 * reading and writing are left out; the texts are parameters.
 */
module InlineWorker {
  import opened Wrappers

  /** `pattern` starts at index i of s. */
  predicate OccursAt(s: string, pattern: string, i: int)
  {
    0 <= i && i + |pattern| <= |s| && s[i..i + |pattern|] == pattern
  }

  /**
   * Python's `str.replace(pattern, replacement)` for a non-empty pattern
   * (every call in the script has one): scanning left to right, each
   * occurrence is replaced and scanning resumes after it.
   */
  function ReplaceAll(s: string, pattern: string, replacement: string): string
    requires |pattern| > 0
    decreases |s|
  {
    if |s| < |pattern| then s
    else if s[..|pattern|] == pattern then replacement + ReplaceAll(s[|pattern|..], pattern, replacement)
    else [s[0]] + ReplaceAll(s[1..], pattern, replacement)
  }

  /** A text without the pattern comes back unchanged. */
  lemma {:induction false} NoOccurrenceUnchanged(s: string, pattern: string, replacement: string)
    requires |pattern| > 0 && forall i :: !OccursAt(s, pattern, i)
    ensures ReplaceAll(s, pattern, replacement) == s
    decreases |s|
  {
    if |s| >= |pattern| {
      assert !OccursAt(s, pattern, 0);
      forall i | OccursAt(s[1..], pattern, i) ensures false {
        assert s[1..][i..i + |pattern|] == s[i + 1..i + 1 + |pattern|];
        assert OccursAt(s, pattern, i + 1);
      }
      NoOccurrenceUnchanged(s[1..], pattern, replacement);
      assert s == [s[0]] + s[1..];
    }
  }

  /**
   * The leftmost occurrence is replaced and the scan goes on after it: the
   * text before it is kept as it is, whatever follows.
   */
  lemma {:induction false} ReplaceLeftmost(a: string, b: string, pattern: string, replacement: string)
    requires |pattern| > 0
    requires forall i :: 0 <= i < |a| ==> !OccursAt(a + pattern + b, pattern, i)
    ensures ReplaceAll(a + pattern + b, pattern, replacement) == a + replacement + ReplaceAll(b, pattern, replacement)
    decreases |a|
  {
    var s := a + pattern + b;
    if a == [] {
      assert s == pattern + b;
      assert s[..|pattern|] == pattern && s[|pattern|..] == b;
    } else {
      assert !OccursAt(s, pattern, 0);
      assert s[1..] == a[1..] + pattern + b;
      forall i | 0 <= i < |a| - 1 ensures !OccursAt(a[1..] + pattern + b, pattern, i) {
        assert !OccursAt(s, pattern, i + 1);
        assert s[1..][i..i + |pattern|] == s[i + 1..i + 1 + |pattern|];
      }
      ReplaceLeftmost(a[1..], b, pattern, replacement);
      assert s[..|pattern|] != pattern;
      assert ReplaceAll(s, pattern, replacement) == [s[0]] + ReplaceAll(s[1..], pattern, replacement);
      assert s[0] == a[0];
      assert a == [a[0]] + a[1..];
    }
  }

  /** Replacing a single character, character by character. */
  function MapChar(s: string, c: char, replacement: string): string
    decreases |s|
  {
    if s == [] then [] else (if s[0] == c then replacement else [s[0]]) + MapChar(s[1..], c, replacement)
  }

  /** For a one-character pattern, `str.replace` is the character-by-character map. */
  lemma {:induction false} SingleCharReplace(s: string, c: char, replacement: string)
    ensures ReplaceAll(s, [c], replacement) == MapChar(s, c, replacement)
    decreases |s|
  {
    if s != [] {
      SingleCharReplace(s[1..], c, replacement);
      assert s[..1] == [c] <==> s[0] == c;
    }
  }

  lemma {:induction false} MapCharAppend(a: string, b: string, c: char, replacement: string)
    ensures MapChar(a + b, c, replacement) == MapChar(a, c, replacement) + MapChar(b, c, replacement)
    decreases |a|
  {
    if a == [] {
      assert a + b == b;
    } else {
      assert (a + b)[1..] == a[1..] + b;
      MapCharAppend(a[1..], b, c, replacement);
    }
  }

  function Count(s: string, c: char): nat
    decreases |s|
  {
    if s == [] then 0 else (if s[0] == c then 1 else 0) + Count(s[1..], c)
  }

  /** Backslash-escaping one character c. */
  function EscapeChar(s: string, c: char): string
  {
    MapChar(s, c, ['\\', c])
  }

  /** Escaping c adds exactly one backslash per occurrence of c. */
  lemma {:induction false} EscapeCharLength(s: string, c: char)
    ensures |EscapeChar(s, c)| == |s| + Count(s, c)
    decreases |s|
  {
    if s != [] {
      EscapeCharLength(s[1..], c);
    }
  }

  /** After escaping, every c stands right after a backslash. */
  lemma {:induction false} EscapeCharPreceded(s: string, c: char)
    requires c != '\\'
    ensures var r := EscapeChar(s, c); forall i :: 0 <= i < |r| && r[i] == c ==> 0 < i && r[i - 1] == '\\'
    decreases |s|
  {
    if s != [] {
      EscapeCharPreceded(s[1..], c);
      var rest := EscapeChar(s[1..], c);
      var head := if s[0] == c then ['\\', c] else [s[0]];
      var r := EscapeChar(s, c);
      assert r == head + rest;
      forall i | 0 <= i < |r| && r[i] == c ensures 0 < i && r[i - 1] == '\\' {
        if i >= |head| {
          assert r[i] == rest[i - |head|];
          if i > |head| {
            assert r[i - 1] == rest[i - 1 - |head|];
          }
        }
      }
    }
  }

  /** Undo the escaping of c: a backslash directly before c is dropped. */
  function UnescapeChar(r: string, c: char): string
    decreases |r|
  {
    if |r| >= 2 && r[0] == '\\' && r[1] == c then [c] + UnescapeChar(r[2..], c)
    else if r == [] then []
    else [r[0]] + UnescapeChar(r[1..], c)
  }

  /** Dropping the inserted backslashes gives the text back. */
  lemma {:induction false} UnescapeEscapeChar(s: string, c: char)
    requires c != '\\'
    ensures UnescapeChar(EscapeChar(s, c), c) == s
    decreases |s|
  {
    if s != [] {
      UnescapeEscapeChar(s[1..], c);
      var rest := EscapeChar(s[1..], c);
      EscapeCharPreceded(s[1..], c);
      assert rest != [] ==> rest[0] != c;
      if s[0] == c {
        assert EscapeChar(s, c) == ['\\', c] + rest;
        assert (['\\', c] + rest)[2..] == rest;
      } else {
        assert EscapeChar(s, c) == [s[0]] + rest;
        assert ([s[0]] + rest)[1..] == rest;
      }
      assert s == [s[0]] + s[1..];
    }
  }

  /** A text without c is left as it is. */
  lemma {:induction false} EscapeCharAbsent(s: string, c: char)
    requires Count(s, c) == 0
    ensures EscapeChar(s, c) == s
    decreases |s|
  {
    if s != [] {
      EscapeCharAbsent(s[1..], c);
      assert s == [s[0]] + s[1..];
    }
  }

  /** `escapeIt`. */
  function EscapeIt(s: string): string
  {
    ReplaceAll(s, "`", "\\`")
  }

  /** `fixDollarSign`; the Python literal `"\$"` is a backslash and a dollar sign. */
  function FixDollarSign(s: string): string
  {
    ReplaceAll(s, "$", "\\$")
  }

  /** `escapeIt` and `fixDollarSign` each add one backslash per occurrence of their character, directly before it, and nothing else. */
  lemma EscapeProperties(s: string)
    ensures |EscapeIt(s)| == |s| + Count(s, '`') && |FixDollarSign(s)| == |s| + Count(s, '$')
    ensures forall i :: 0 <= i < |EscapeIt(s)| && EscapeIt(s)[i] == '`' ==> 0 < i && EscapeIt(s)[i - 1] == '\\'
    ensures forall i :: 0 <= i < |FixDollarSign(s)| && FixDollarSign(s)[i] == '$' ==> 0 < i && FixDollarSign(s)[i - 1] == '\\'
    ensures UnescapeChar(EscapeIt(s), '`') == s && UnescapeChar(FixDollarSign(s), '$') == s
    ensures Count(s, '`') == 0 ==> EscapeIt(s) == s
    ensures Count(s, '$') == 0 ==> FixDollarSign(s) == s
  {
    SingleCharReplace(s, '`', "\\`");
    SingleCharReplace(s, '$', "\\$");
    assert "\\`" == ['\\', '`'] && "\\$" == ['\\', '$'];
    EscapeCharLength(s, '`');
    EscapeCharLength(s, '$');
    EscapeCharPreceded(s, '`');
    EscapeCharPreceded(s, '$');
    UnescapeEscapeChar(s, '`');
    UnescapeEscapeChar(s, '$');
    if Count(s, '`') == 0 {
      EscapeCharAbsent(s, '`');
    }
    if Count(s, '$') == 0 {
      EscapeCharAbsent(s, '$');
    }
  }

  /** The worker text as the script escapes it: backticks first, then dollar signs. */
  function InlinedText(worker: string): string
  {
    FixDollarSign(EscapeIt(worker))
  }

  /** `target`: the call the runtime script uses to load the worker file. */
  function Target(moduleName: string): (t: string)
    ensures |t| > 0
  {
    "locateFile('" + moduleName + ".worker.js')"
  }

  /** `replace`: a Blob URL over the escaped worker text in a template literal. */
  function Replacement(text: string): string
  {
    "URL.createObjectURL(new Blob([`" + text + "`], { type: \"application/javascript\" }))"
  }

  /** The result `main` writes back over the runtime script. */
  function Inline(runtime: string, worker: string, moduleName: string): string
  {
    ReplaceAll(runtime, Target(moduleName), Replacement(InlinedText(worker)))
  }

  /**
   * `main` touches nothing but the loader calls: a runtime script without
   * one is written back unchanged, and otherwise the text before the first
   * call is kept and the call becomes the Blob URL.
   */
  lemma InlineReplacesTargets(runtime: string, worker: string, moduleName: string, a: string, b: string)
    ensures (forall i :: !OccursAt(runtime, Target(moduleName), i)) ==> Inline(runtime, worker, moduleName) == runtime
    ensures runtime == a + Target(moduleName) + b && (forall i :: 0 <= i < |a| ==> !OccursAt(runtime, Target(moduleName), i)) ==>
      Inline(runtime, worker, moduleName) == a + Replacement(InlinedText(worker)) + Inline(b, worker, moduleName)
  {
    if forall i :: !OccursAt(runtime, Target(moduleName), i) {
      NoOccurrenceUnchanged(runtime, Target(moduleName), Replacement(InlinedText(worker)));
    }
    if runtime == a + Target(moduleName) + b && (forall i :: 0 <= i < |a| ==> !OccursAt(runtime, Target(moduleName), i)) {
      ReplaceLeftmost(a, b, Target(moduleName), Replacement(InlinedText(worker)));
    }
  }

  /** Why reading a template literal's body can fail, as far as this model goes. */
  datatype TemplateError =
    | ClosedEarly       // an unescaped backtick ends the literal inside the body
    | Substitution      // an unescaped `${` starts a substitution
    | Unterminated      // a trailing backslash escapes the closing backtick
    | OtherEscape       // an escape other than \\, \` and \$, which this model does not read

  /**
   * The text a JavaScript template literal with body t stands for
   * (its cooked value in ECMA-262), for bodies whose only escapes are `\\`,
   * `` \` `` and `\$`. Cooking also turns CR and CRLF into LF, which is not
   * modelled: the script reads the worker in text mode, so its text holds no CR.
   */
  function Cook(t: string): Result<string, TemplateError>
    decreases |t|
  {
    if t == [] then Ok([])
    else if t[0] == '`' then Err(ClosedEarly)
    else if t[0] == '\\' then
      if |t| == 1 then Err(Unterminated)
      else if t[1] == '\\' || t[1] == '`' || t[1] == '$' then
        match Cook(t[2..])
        case Ok(rest) => Ok([t[1]] + rest)
        case Err(e) => Err(e)
      else Err(OtherEscape)
    else if t[0] == '$' && |t| > 1 && t[1] == '{' then Err(Substitution)
    else
      match Cook(t[1..])
      case Ok(rest) => Ok([t[0]] + rest)
      case Err(e) => Err(e)
  }

  /**
   * A worker holding a backslash before a backtick is not reproduced: the
   * script's escaping yields `\\` then a bare backtick, which closes the
   * literal inside the worker text.
   */
  lemma InlinedTextCounterexample()
    ensures InlinedText("\\`") == "\\\\`"
    ensures Cook(InlinedText("\\`")) == Err(ClosedEarly)
  {
    var s := "\\`";
    SingleCharReplace(s, '`', "\\`");
    assert MapChar(s, '`', "\\`") == "\\\\`" by {
      assert s[1..] == "`" && MapChar(s[1..], '`', "\\`") == "\\`" by {
        assert MapChar("`"[1..], '`', "\\`") == [];
      }
    }
    var e := "\\\\`";
    SingleCharReplace(e, '$', "\\$");
    assert MapChar(e, '$', "\\$") == e by {
      assert Count(e, '$') == 0 by {
        assert e[1..][1..] == "`";
      }
      EscapeCharAbsent(e, '$');
    }
    assert e[2..] == "`";
  }

  /** Escaping backslashes as well, before backticks and dollar signs. */
  function InlinedTextCorrected(worker: string): string
  {
    FixDollarSign(EscapeIt(ReplaceAll(worker, "\\", "\\\\")))
  }

  /** The three escapes in one pass: a backslash before each `\`, `` ` `` and `$`. */
  function TemplateEscape(s: string): string
    decreases |s|
  {
    if s == [] then []
    else (if s[0] == '\\' || s[0] == '`' || s[0] == '$' then ['\\', s[0]] else [s[0]]) + TemplateEscape(s[1..])
  }

  /** The corrected chain of replacements is the one-pass escape. */
  lemma {:induction false} CorrectedIsTemplateEscape(s: string)
    ensures MapChar(MapChar(MapChar(s, '\\', "\\\\"), '`', "\\`"), '$', "\\$") == TemplateEscape(s)
    decreases |s|
  {
    if s != [] {
      CorrectedIsTemplateEscape(s[1..]);
      var h := if s[0] == '\\' then "\\\\" else [s[0]];
      var m1 := MapChar(s[1..], '\\', "\\\\");
      assert MapChar(s, '\\', "\\\\") == h + m1;
      MapCharAppend(h, m1, '`', "\\`");
      var h2 := MapChar(h, '`', "\\`");
      var m2 := MapChar(m1, '`', "\\`");
      MapCharAppend(h2, m2, '$', "\\$");
      assert MapChar(h2, '$', "\\$") == (if s[0] == '\\' || s[0] == '`' || s[0] == '$' then ['\\', s[0]] else [s[0]]) by {
        if s[0] == '\\' {
          assert h[1..] == "\\";
          assert h2 == "\\\\";
          assert h2[1..] == "\\";
        } else if s[0] == '`' {
          assert h2 == "\\`";
          assert h2[1..] == "`";
        } else {
          assert h2 == [s[0]];
        }
      }
    }
  }

  /** A literal of the one-pass escape stands for exactly the original text. */
  lemma {:induction false} CookTemplateEscape(s: string)
    ensures Cook(TemplateEscape(s)) == Ok(s)
    decreases |s|
  {
    if s != [] {
      CookTemplateEscape(s[1..]);
      var rest := TemplateEscape(s[1..]);
      if s[0] == '\\' || s[0] == '`' || s[0] == '$' {
        assert TemplateEscape(s) == ['\\', s[0]] + rest;
        assert (['\\', s[0]] + rest)[2..] == rest;
      } else {
        assert TemplateEscape(s) == [s[0]] + rest;
        assert ([s[0]] + rest)[1..] == rest;
        assert rest != [] ==> rest[0] != '{' || s[0] != '$';
      }
      assert s == [s[0]] + s[1..];
    }
  }

  /** With backslashes escaped too, the Blob receives the worker text exactly, for every worker text. */
  lemma InlinedTextCorrectedReproduces(worker: string)
    ensures Cook(InlinedTextCorrected(worker)) == Ok(worker)
  {
    SingleCharReplace(worker, '\\', "\\\\");
    var m1 := MapChar(worker, '\\', "\\\\");
    SingleCharReplace(m1, '`', "\\`");
    var m2 := MapChar(m1, '`', "\\`");
    SingleCharReplace(m2, '$', "\\$");
    CorrectedIsTemplateEscape(worker);
    CookTemplateEscape(worker);
  }
}
