/**
 * Path formatting: `fmt.Sprintf` restricted to `%s` verbs, each filled by the next
 * argument in order.
 */
module Format {

  /**
   * Replaces the `%s` holes of `template`, left to right, by the strings of `args`.
   * A hole with no argument left is kept as it is; surplus arguments are dropped.
   */
  function Sprintf(template: string, args: seq<string>): string
    decreases |template|
  {
    if |template| < 2 then template
    else if template[0] == '%' && template[1] == 's' && args != [] then
      args[0] + Sprintf(template[2..], args[1..])
    else
      [template[0]] + Sprintf(template[1..], args)
  }

  /** Text with no `%` in it, which formatting copies unchanged. */
  predicate Literal(s: string) {
    forall k :: 0 <= k < |s| ==> s[k] != '%'
  }

  /** A literal prefix is copied and consumes no argument. */
  lemma {:induction false} LiteralPrefix(p: string, rest: string, args: seq<string>)
    requires Literal(p)
    ensures Sprintf(p + rest, args) == p + Sprintf(rest, args)
    decreases |p|
  {
    if p == [] {
      assert p + rest == rest;
    } else {
      var t := p + rest;
      assert t[0] == p[0] && p[0] != '%';
      if |t| < 2 {
        assert rest == [] && t == p;
        assert Sprintf(rest, args) == [];
      } else {
        assert t[1..] == p[1..] + rest;
        LiteralPrefix(p[1..], rest, args);
        calc {
          Sprintf(t, args);
          [p[0]] + Sprintf(p[1..] + rest, args);
          [p[0]] + (p[1..] + Sprintf(rest, args));
          { assert [p[0]] + p[1..] == p; }
          p + Sprintf(rest, args);
        }
      }
    }
  }

  /** Formatting a literal returns it unchanged, whatever the arguments. */
  lemma LiteralUnchanged(p: string, args: seq<string>)
    requires Literal(p)
    ensures Sprintf(p, args) == p
  {
    LiteralPrefix(p, [], args);
    assert p + [] == p;
  }

  /** Filling one hole at the front of the text. */
  lemma HoleFirst(rest: string, a: string, args: seq<string>)
    ensures Sprintf("%s" + rest, [a] + args) == a + Sprintf(rest, args)
  {
    var t := "%s" + rest;
    assert t[0] == '%' && t[1] == 's' && t[2..] == rest;
    assert ([a] + args)[1..] == args;
  }

  /**
   * A template with two holes and literal text around them is filled positionally:
   * the first argument goes into the first hole, the second into the second.
   */
  lemma FillTwoHoles(p0: string, p1: string, p2: string, a: string, b: string)
    requires Literal(p0) && Literal(p1) && Literal(p2)
    ensures Sprintf(p0 + "%s" + p1 + "%s" + p2, [a, b]) == p0 + a + p1 + b + p2
  {
    var tail := p1 + ("%s" + p2);
    calc {
      Sprintf(p0 + "%s" + p1 + "%s" + p2, [a, b]);
      { assert p0 + "%s" + p1 + "%s" + p2 == p0 + ("%s" + tail); }
      Sprintf(p0 + ("%s" + tail), [a, b]);
      { LiteralPrefix(p0, "%s" + tail, [a, b]); }
      p0 + Sprintf("%s" + tail, [a, b]);
      { assert [a, b] == [a] + [b]; HoleFirst(tail, a, [b]); }
      p0 + (a + Sprintf(tail, [b]));
      { LiteralPrefix(p1, "%s" + p2, [b]); }
      p0 + (a + (p1 + Sprintf("%s" + p2, [b])));
      { assert [b] == [b] + []; HoleFirst(p2, b, []); }
      p0 + (a + (p1 + (b + Sprintf(p2, []))));
      { LiteralUnchanged(p2, []); }
      p0 + (a + (p1 + (b + p2)));
      p0 + a + p1 + b + p2;
    }
  }
}
