/**
 * What the frontend forms share: the create/edit mode of a dialog, the JavaScript truthiness
 * of optional text, the trimming of optional payload fields, and the validation shape of a
 * list of checks run in order, where the first one that fails sets the form's error message
 * and ends the submit.
 */
module Forms {
  import opened Wrappers
  import opened Text

  /** The `mode` prop of a dialog: `"create"` or `"edit"`. */
  datatype Mode = CreateMode | EditMode

  /** `!!x` for a string that may be null or undefined. */
  predicate Truthy(s: Option<string>) {
    s.Some? && s.value != ""
  }

  /** `x || ''`. */
  function OrEmpty(s: Option<string>): string {
    if s.Some? then s.value else ""
  }

  /** An optional text field of a payload: its trimmed text when it is shown and not blank, else left out. */
  function Kept(shown: bool, s: string): Option<string> {
    if shown && !IsBlank(s) then Some(Trim(s)) else None
  }

  /** An optional text that is absent, or present, non-empty and already trimmed. */
  predicate Clean(o: Option<string>) {
    o.Some? ==> o.value != "" && Trim(o.value) == o.value
  }

  /** A clean optional text survives prefill and submit unchanged. */
  lemma CleanSurvives(o: Option<string>)
    requires Clean(o)
    ensures Kept(Truthy(o), OrEmpty(o)) == o
  {
  }

  /** The empty text is blank. */
  lemma EmptyIsBlank()
    ensures IsBlank("")
  {
  }

  /** A kept text is already trimmed and not blank. */
  lemma KeptIsTrimmed(shown: bool, s: string)
    ensures Kept(shown, s).None? <==> !shown || IsBlank(s)
    ensures Clean(Kept(shown, s))
  {
    TrimIdempotent(s);
  }

  /** One check: whether it fails, and the message it then reports. */
  datatype Check = Check(fails: bool, message: string)

  /** Every check of the list passes. */
  predicate AllPass(cs: seq<Check>) {
    forall i | 0 <= i < |cs| :: !cs[i].fails
  }

  /** The check at `i` fails with message `m`, and every check before it passes. */
  predicate FirstAt(cs: seq<Check>, i: int, m: string) {
    0 <= i < |cs| && cs[i].fails && m == cs[i].message && AllPass(cs[..i])
  }

  /** The message of the first failing check, or `None` when every check passes. */
  function FirstFailing(cs: seq<Check>): (r: Option<string>)
    ensures r.None? <==> AllPass(cs)
    ensures r.Some? ==> exists i :: FirstAt(cs, i, r.value)
  {
    if cs == [] then None
    else if cs[0].fails then
      assert FirstAt(cs, 0, cs[0].message);
      Some(cs[0].message)
    else
      var r := FirstFailing(cs[1..]);
      assert AllPass(cs[1..]) ==> AllPass(cs) by {
        if AllPass(cs[1..]) {
          forall i | 0 <= i < |cs| ensures !cs[i].fails {
            if i > 0 { assert cs[i] == cs[1..][i - 1]; }
          }
        }
      }
      assert r.Some? ==> exists i :: FirstAt(cs, i, r.value) by {
        if r.Some? {
          var k :| FirstAt(cs[1..], k, r.value);
          assert cs[1..][..k] == cs[1..k + 1];
          var p := cs[..k + 1];
          forall j | 0 <= j < |p| ensures !p[j].fails {
            if j > 0 { assert p[j] == cs[1..k + 1][j - 1]; }
          }
          assert FirstAt(cs, k + 1, r.value);
        }
      }
      r
  }

  /** A list of checks is tried from its head. */
  lemma FirstFailingCons(c: Check, rest: seq<Check>)
    ensures FirstFailing([c] + rest) == if c.fails then Some(c.message) else FirstFailing(rest)
  {
    assert ([c] + rest)[1..] == rest;
  }

  /** Three checks report like a chain of three `if`s, each returning its message. */
  lemma FirstOfThree(a: Check, b: Check, c: Check)
    ensures FirstFailing([a, b, c]) ==
      if a.fails then Some(a.message) else if b.fails then Some(b.message)
      else if c.fails then Some(c.message) else None
  {
    var t1 := [c] + [];
    var t2 := [b] + t1;
    var t3 := [a] + t2;
    FirstFailingCons(c, []);
    FirstFailingCons(b, t1);
    FirstFailingCons(a, t2);
    assert t3 == [a, b, c];
  }

  /** Six checks report like a chain of six `if`s, each returning its message. */
  lemma FirstOfSix(a: Check, b: Check, c: Check, d: Check, e: Check, g: Check)
    ensures FirstFailing([a, b, c, d, e, g]) ==
      if a.fails then Some(a.message) else if b.fails then Some(b.message)
      else if c.fails then Some(c.message) else if d.fails then Some(d.message)
      else if e.fails then Some(e.message) else if g.fails then Some(g.message) else None
  {
    var t3 := [d, e, g];
    var t4 := [c] + t3;
    var t5 := [b] + t4;
    var t6 := [a] + t5;
    FirstOfThree(d, e, g);
    FirstFailingCons(c, t3);
    FirstFailingCons(b, t4);
    FirstFailingCons(a, t5);
    assert t6 == [a, b, c, d, e, g];
  }
}
