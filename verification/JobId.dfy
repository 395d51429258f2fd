/** GridSAM job ids: how a submitted job's id is printed, and how the remote id is parsed out of it. */
module JobId {
  import opened Options

  /** `c_str()`: what a C string function sees of a string. */
  function CString(s: string): string {
    if s == "" || s[0] == '\0' then "" else [s[0]] + CString(s[1..])
  }

  /** `*(anychar_p - stop)`: the characters before the first `stop`, and what follows them. */
  function Run(s: string, stop: char): (r: (string, string))
    ensures s == r.0 + r.1 && stop !in r.0
    ensures r.1 == "" || r.1[0] == stop
  {
    if s == "" || s[0] == stop then ("", s)
    else
      var (run, rest) := Run(s[1..], stop);
      ([s[0]] + run, rest)
  }

  function Literal(lit: string, s: string): Option<string> {
    if lit <= s then Some(s[|lit|..]) else None
  }

  /** Whether the whole string is a job id, and what the action has assigned to the remote id. */
  function Parse(s: string): (bool, Option<string>) {
    var inside := Literal("[", s);
    if inside.None? then (false, None)
    else
      var middle := Literal("]-[", Run(inside.value, ']').1);
      if middle.None? then (false, None)
      else
        var colon := Literal(":", Run(middle.value, ':').1);
        if colon.None? then (false, None)
        else
          var (remote, rest) := Run(colon.value, ']');
          (rest == "]", Some(remote))
  }

  function ExtractJobid(jobid: string): (bool, Option<string>) {
    Parse(CString(jobid))
  }

  /** The id of a job that `endpoint` runs on `host` under the name `remote`. */
  function Format(endpoint: string, host: string, remote: string): string {
    "[" + endpoint + "]-[" + host + ":" + remote + "]"
  }

  /** No bracket or colon that would end a part early. */
  predicate Clean(endpoint: string, host: string, remote: string) {
    ']' !in endpoint && ':' !in host && ']' !in remote
  }

  // ------------------------------------------------------------------ the grammar

  lemma {:induction false} RunStops(a: string, stop: char, rest: string)
    requires stop !in a && (rest == "" || rest[0] == stop)
    ensures Run(a + rest, stop) == (a, rest)
  {
    if a == "" {
      assert a + rest == rest;
    } else {
      RunStops(a[1..], stop, rest);
      assert (a + rest)[0] == a[0] && (a + rest)[1..] == a[1..] + rest;
      assert [a[0]] + a[1..] == a;
    }
  }

  lemma Literals(lit: string, rest: string)
    ensures Literal(lit, lit + rest) == Some(rest)
  {}

  lemma ParseClean(e: string, h: string, j: string)
    requires Clean(e, h, j)
    ensures Parse(Format(e, h, j)) == (true, Some(j))
  {
    hide Literal, Run;
    var r3 := j + "]";
    var r2 := h + (":" + r3);
    var r1 := e + ("]-[" + r2);
    assert Format(e, h, j) == "[" + r1;
    Literals("[", r1);
    RunStops(e, ']', "]-[" + r2);
    Literals("]-[", r2);
    RunStops(h, ':', ":" + r3);
    Literals(":", r3);
    RunStops(j, ']', "]");
  }

  lemma LiteralTaken(lit: string, s: string)
    requires Literal(lit, s).Some?
    ensures s == lit + Literal(lit, s).value
  {}

  lemma Joined(e: string, h: string, j: string)
    ensures Format(e, h, j) == "[" + (e + ("]-[" + (h + (":" + (j + "]")))))
    ensures Format(e, h, j) == "[" + (e + "]" + ("-[" + (h + ":" + (j + "]"))))
  {}

  lemma ParseSplits(s: string) returns (e: string, h: string)
    requires Parse(s).0
    ensures Parse(s).1.Some? && s == Format(e, h, Parse(s).1.value) && Clean(e, h, Parse(s).1.value)
  {
    hide Literal, Run, Format;
    LiteralTaken("[", s);
    var (a, r1) := Run(Literal("[", s).value, ']');
    LiteralTaken("]-[", r1);
    var (b, r2) := Run(Literal("]-[", r1).value, ':');
    LiteralTaken(":", r2);
    var (j, r3) := Run(Literal(":", r2).value, ']');
    e, h := a, b;
    Joined(e, h, j);
  }

  /** A string is accepted, with a remote id, exactly if it reads as the three clean parts of an id. */
  lemma AcceptedIff(jobid: string, j: string)
    ensures ExtractJobid(jobid) == (true, Some(j)) <==>
            exists e, h :: Clean(e, h, j) && CString(jobid) == "[" + e + "]-[" + h + ":" + j + "]"
  {
    hide Parse, Literal, Run;
    if ExtractJobid(jobid) == (true, Some(j)) {
      var e, h := ParseSplits(CString(jobid));
    }
    if e, h :| Clean(e, h, j) && CString(jobid) == "[" + e + "]-[" + h + ":" + j + "]" {
      assert CString(jobid) == Format(e, h, j);
      ParseClean(e, h, j);
    }
  }

  lemma {:induction false} OneCut(a: string, stop: char, x: string, b: string, y: string)
    requires stop !in a && stop !in b && a + [stop] + x == b + [stop] + y
    ensures a == b && x == y
  {
    RunStops(a, stop, [stop] + x);
    RunStops(b, stop, [stop] + y);
    assert a + [stop] + x == a + ([stop] + x) && b + [stop] + y == b + ([stop] + y);
    assert ([stop] + x)[1..] == x && ([stop] + y)[1..] == y;
  }

  /** In exactly one way: printing ids of clean parts is injective. */
  lemma FormatInjective(e: string, h: string, j: string, e2: string, h2: string, j2: string)
    requires Clean(e, h, j) && Clean(e2, h2, j2) && Format(e, h, j) == Format(e2, h2, j2)
    ensures e == e2 && h == h2 && j == j2
  {
    hide Format;
    Joined(e, h, j);
    Joined(e2, h2, j2);
    var x, y := "-[" + (h + ":" + (j + "]")), "-[" + (h2 + ":" + (j2 + "]"));
    assert Format(e, h, j)[1..] == e + "]" + x && Format(e2, h2, j2)[1..] == e2 + "]" + y;
    OneCut(e, ']', x, e2, y);
    assert x[2..] == h + ":" + (j + "]") && y[2..] == h2 + ":" + (j2 + "]");
    OneCut(h, ':', j + "]", h2, j2 + "]");
    assert (j + "]")[..|j|] == j && (j2 + "]")[..|j2|] == j2;
  }

  // ------------------------------------------------------------------ any endpoint, host and remote id

  /** The endpoint has no bracket, or its first one starts a "]-[" that no colon follows. */
  predicate EndpointOk(e: string) {
    var r := Run(e, ']').1;
    r == "" || ("]-[" <= r && ':' !in r)
  }

  lemma {:induction false} CStringWhole(s: string)
    requires '\0' !in s
    ensures CString(s) == s
  {
    if s != "" {
      CStringWhole(s[1..]);
    }
  }

  lemma RunOf(a: string, stop: char, rest: string)
    requires stop in a
    ensures Run(a, stop).1 != "" && Run(a + rest, stop) == (Run(a, stop).0, Run(a, stop).1 + rest)
  {
    hide Run;
    var (x, y) := Run(a, stop);
    assert y == "" ==> a == x;
    assert a + rest == x + (y + rest);
    RunStops(x, stop, y + rest);
  }

  /** The last two steps: with the host and the remote id to come, the remote id found is `j` exactly
      if no colon comes before the one printed and no bracket in it. */
  lemma TailIff(b: string, j: string)
    ensures var r := Literal(":", Run(b + ":" + j + "]", ':').1);
            r.Some? && (Run(r.value, ']') == (j, "]") <==> ':' !in b && ']' !in j)
  {
    hide Literal, Run;
    var rest := ":" + (j + "]");
    assert b + ":" + j + "]" == b + rest;
    if ':' !in b {
      RunStops(b, ':', rest);
      Literals(":", j + "]");
      RemoteIff(j + "]", j);
    } else {
      RunOf(b, ':', rest);
      var y := Run(b, ':').1;
      assert y == ":" + y[1..];
      assert y + rest == ":" + (y[1..] + rest);
      Literals(":", y[1..] + rest);
      RemoteIff(y[1..] + rest, j);
    }
  }

  lemma RemoteIff(v: string, j: string)
    ensures Run(v, ']') == (j, "]") <==> v == j + "]" && ']' !in j
  {
    hide Run;
    if v == j + "]" && ']' !in j {
      RunStops(j, ']', "]");
    }
  }

  lemma NoStop(a: string, stop: char)
    ensures stop !in a ==> Run(a, stop).1 == ""
  {
    if stop !in a {
      RunStops(a, stop, "");
      assert a + "" == a;
    }
  }

  lemma NoLiteral(lit: string, s: string)
    requires |s| >= |lit|
    ensures Literal(lit, s).None? <==> s[..|lit|] != lit
  {}

  /** From the endpoint's first bracket on. */
  lemma BracketTail(y: string, h: string, j: string)
    requires y != "" && y[0] == ']'
    ensures var middle := Literal("]-[", y + ("]-[" + (h + ":" + j + "]")));
            if "]-[" <= y then
              && middle.Some?
              && var r := Literal(":", Run(middle.value, ':').1);
                 r.Some? && (Run(r.value, ']') == (j, "]") <==> ':' !in y && ':' !in h && ']' !in j)
            else middle.None?
  {
    hide Literal, Run;
    var z := y + ("]-[" + (h + ":" + j + "]"));
    NoLiteral("]-[", z);
    if "]-[" <= y {
      var b := y[3..] + "]-[" + h;
      assert z == "]-[" + (b + ":" + j + "]");
      Literals("]-[", b + ":" + j + "]");
      TailIff(b, j);
      assert y == "]-[" + y[3..];
    } else if |y| >= 3 {
      assert z[..3] == y[..3];
    } else {
      assert z[|y|] == ']' != "]-["[|y|];
    }
  }

  /** What parsing makes of a printed id, as if it were no C string. */
  lemma ParsedIff(e: string, h: string, j: string)
    ensures Parse(Format(e, h, j)) == (true, Some(j)) <==> EndpointOk(e) && ':' !in h && ']' !in j
    ensures ']' in e && !("]-[" <= Run(e, ']').1) ==> Parse(Format(e, h, j)) == (false, None)
  {
    hide Literal, Run;
    var tail := h + ":" + j + "]";
    var r1 := e + ("]-[" + tail);
    assert Format(e, h, j) == "[" + r1;
    Literals("[", r1);
    if ']' !in e {
      RunStops(e, ']', "]-[" + tail);
      NoStop(e, ']');
      Literals("]-[", tail);
      TailIff(h, j);
    } else {
      RunOf(e, ']', "]-[" + tail);
      var y := Run(e, ']').1;
      BracketTail(y, h, j);
    }
  }

  lemma {:induction false} CStringCut(a: string, b: string)
    ensures CString(a + b) == if '\0' in a then CString(a) else a + CString(b)
    ensures '\0' !in CString(a)
  {
    if a == "" {
      assert a + b == b;
    } else {
      assert (a + b)[1..] == a[1..] + b;
      CStringCut(a[1..], b);
    }
  }

  lemma NoNulOut(s: string)
    requires '\0' !in s
    ensures Parse(s).0 ==> Parse(s).1.Some? && '\0' !in Parse(s).1.value
  {
    hide Parse;
    if Parse(s).0 {
      var e, h := ParseSplits(s);
      var j := Parse(s).1.value;
      assert forall i | 0 <= i < |j| :: j[i] == s[|s| - 1 - |j| + i];
    }
  }

  /** Which printed ids give their remote id back, for any parts at all.  A NUL in the endpoint or the
      host cuts the remote id off, so that it plays no part in what is parsed. */
  lemma RoundTripIff(e: string, h: string, j: string)
    ensures if '\0' in e || '\0' in h
            then forall other :: ExtractJobid(Format(e, h, other)) == ExtractJobid(Format(e, h, j))
            else ExtractJobid(Format(e, h, j)) == (true, Some(j)) <==>
                 EndpointOk(e) && ':' !in h && ']' !in j && '\0' !in j
  {
    hide Parse, Run, EndpointOk;
    var front := "[" + e + "]-[" + h;
    forall other ensures Format(e, h, other) == front + (":" + other + "]") {
      assert Format(e, h, other) == "[" + e + "]-[" + h + ":" + other + "]";
    }
    if '\0' in e || '\0' in h {
      assert '\0' in front;
      forall other ensures CString(Format(e, h, other)) == CString(front) {
        CStringCut(front, ":" + other + "]");
      }
    } else if '\0' in j {
      CStringCut(Format(e, h, j), "");
      NoNulOut(CString(Format(e, h, j)));
    } else {
      CStringWhole(Format(e, h, j));
      ParsedIff(e, h, j);
    }
  }

  /** An endpoint whose first bracket does not start a "]-[" makes no id the parser accepts. */
  lemma BracketRejected(a: string, b: string, h: string, j: string)
    requires ']' !in a && b != [] && b[0] != '-'
    requires '\0' !in a && '\0' !in b && '\0' !in h && '\0' !in j
    ensures ExtractJobid(Format(a + "]" + b, h, j)) == (false, None)
  {
    hide Parse, Run;
    var e := a + "]" + b;
    CStringWhole(Format(e, h, j));
    assert e == a + ("]" + b);
    RunStops(a, ']', "]" + b);
    assert ("]" + b)[1] == b[0];
    ParsedIff(e, h, j);
  }

  /** Such as one with a bracketed address and a port. */
  lemma AddressRejected(h: string, j: string)
    requires '\0' !in h && '\0' !in j
    ensures ExtractJobid(Format("https://[::1" + "]" + ":8443/x", h, j)) == (false, None)
  {
    hide Parse, Run, ExtractJobid, Format;
    BracketRejected("https://[::1", ":8443/x", h, j);
  }
}
