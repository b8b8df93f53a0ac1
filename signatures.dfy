/** Directive records and their signature grammar
    `^\w+:[\w\.]+:\d+:[\w\.]+:[\w/]+$` (alias, ip, port, server_name, location),
    with `\w` read as ASCII `[A-Za-z0-9_]`. */
module Signatures {
  import opened PyValues
  import opened Text

  predicate IsWordChar(c: char)
  {
    ('a' <= c <= 'z') || ('A' <= c <= 'Z') || ('0' <= c <= '9') || c == '_'
  }

  /** The character class of field k of a signature:
      0 alias `\w`, 1 ip `[\w.]`, 2 port `\d`, 3 server_name `[\w.]`, 4 location `[\w/]`. */
  predicate InField(k: nat, c: char)
  {
    if k == 0 then IsWordChar(c)
    else if k == 1 || k == 3 then IsWordChar(c) || c == '.'
    else if k == 2 then IsDigit(c)
    else IsWordChar(c) || c == '/'
  }

  /** The regular expression without its anchors, read left to right as an automaton:
      k is the field being read and `seen` says whether it already has a character.
      A colon closes a non-empty field; the string must end inside a non-empty
      fifth field. */
  predicate Scan(s: string, k: nat, seen: bool)
    decreases |s|
  {
    if s == [] then k == 4 && seen
    else if s[0] == ':' then seen && k < 4 && Scan(s[1..], k + 1, false)
    else InField(k, s[0]) && Scan(s[1..], k, true)
  }

  /** Python's `$` also matches just before one final newline. */
  function Chomp(s: string): string
  {
    if |s| > 0 && s[|s| - 1] == '\n' then s[..|s| - 1] else s
  }

  /** `re.match(signature_regex, s)` succeeds. */
  predicate SignatureMatches(s: string)
  {
    Scan(Chomp(s), 0, false)
  }

  /** Every character of f belongs to the class of field k. */
  predicate Chunk(k: nat, f: string)
  {
    forall i :: 0 <= i < |f| ==> InField(k, f[i])
  }

  /** The colon-separated pieces p describe fields k..4 of a signature. */
  predicate ShapeFrom(p: seq<string>, k: nat, seen: bool)
  {
    && |p| >= 1
    && |p| + k == 5
    && (seen || p[0] != "")
    && Chunk(k, p[0])
    && forall j :: 1 <= j < |p| ==> p[j] != "" && Chunk(k + j, p[j])
  }

  /** The automaton accepts exactly the strings whose split on ':' has the shape. */
  lemma {:induction false} ScanShape(s: string, k: nat, seen: bool)
    requires k <= 4
    ensures Scan(s, k, seen) <==> ShapeFrom(Split(s, ':'), k, seen)
    decreases |s|
  {
    if s == [] {
    } else if s[0] == ':' {
      if k < 4 {
        ScanShape(s[1..], k + 1, false);
        ColonShape(Split(s[1..], ':'), k, seen);
      }
    } else {
      ScanShape(s[1..], k, true);
      CharShape(s, k, seen);
    }
  }

  /** A colon ends field k: the pieces after it describe fields k+1..4. */
  lemma ColonShape(q: seq<string>, k: nat, seen: bool)
    requires k < 4
    ensures ShapeFrom([""] + q, k, seen) <==> ShapeFrom(q, k + 1, false) && seen
  {
    var p := [""] + q;
    if ShapeFrom(q, k + 1, false) && seen {
      assert forall j :: 1 <= j < |p| ==> p[j] == q[j - 1];
    }
    if ShapeFrom(p, k, seen) {
      assert q[0] == p[1];
      assert forall j :: 1 <= j < |q| ==> q[j] == p[j + 1];
    }
  }

  lemma ChunkCons(k: nat, c: char, f: string)
    ensures Chunk(k, [c] + f) <==> InField(k, c) && Chunk(k, f)
  {
    var g := [c] + f;
    assert g[0] == c;
    if Chunk(k, g) {
      forall i | 0 <= i < |f| ensures InField(k, f[i]) {
        assert g[i + 1] == f[i];
      }
    }
    if InField(k, c) && Chunk(k, f) {
      forall i | 0 <= i < |g| ensures InField(k, g[i]) {
        if i > 0 {
          assert g[i] == f[i - 1];
        }
      }
    }
  }

  /** A field character in front of the first piece. */
  lemma ConsShape(c: char, q: seq<string>, k: nat, seen: bool)
    requires |q| >= 1
    ensures ShapeFrom([[c] + q[0]] + q[1..], k, seen) <==> InField(k, c) && ShapeFrom(q, k, true)
  {
    var p := [[c] + q[0]] + q[1..];
    assert forall j :: 1 <= j < |q| ==> q[j] == p[j];
    ChunkCons(k, c, q[0]);
  }

  /** A field character extends the first piece. */
  lemma CharShape(s: string, k: nat, seen: bool)
    requires s != [] && s[0] != ':' && k <= 4
    ensures ShapeFrom(Split(s, ':'), k, seen) <==> InField(k, s[0]) && ShapeFrom(Split(s[1..], ':'), k, true)
  {
    ConsShape(s[0], Split(s[1..], ':'), k, seen);
  }

  /** The grammar, stated on the split: a signature matches iff (after the one
      newline `$` tolerates) it splits into exactly five non-empty fields, each
      made of its field's characters. */
  lemma SignatureShape(s: string)
    ensures SignatureMatches(s) <==> ShapeFrom(Split(Chomp(s), ':'), 0, false)
  {
    ScanShape(Chomp(s), 0, false);
  }

  /** The five fields a signature unpacks into. */
  datatype Route = Route(alias: string, ip: string, port: string, server: string, path: string)

  function Encode(r: Route): string
  {
    r.alias + ":" + r.ip + ":" + r.port + ":" + r.server + ":" + r.path
  }

  lemma JoinFive(p: seq<string>)
    requires |p| == 5
    ensures Join(p, ':') == p[0] + ":" + p[1] + ":" + p[2] + ":" + p[3] + ":" + p[4]
  {
    var t3 := p[3..];
    assert Join(t3, ':') == p[3] + ":" + p[4] by {
      assert t3[1..] == [p[4]];
    }
    assert Join(p[2..], ':') == p[2] + ":" + Join(t3, ':') by {
      assert p[2..][1..] == t3;
    }
    assert Join(p[1..], ':') == p[1] + ":" + Join(p[2..], ':') by {
      assert p[1..][1..] == p[2..];
    }
  }

  /** Every accepted signature splits into five non-empty colon-free fields: the
      port is all digits, the other fields are made of their characters (the location
      possibly followed by the one newline `$` tolerates), and they join back
      into the signature. */
  lemma {:induction false} AcceptedFields(s: string)
    requires SignatureMatches(s)
    ensures var p := Split(s, ':');
      && |p| == 5
      && (forall j :: 0 <= j < 5 ==> p[j] != "" && ':' !in p[j])
      && (forall j :: 0 <= j < 4 ==> Chunk(j, p[j]))
      && AllDigits(p[2])
      && (Chunk(4, p[4]) || (|p[4]| > 1 && p[4][|p[4]| - 1] == '\n' && Chunk(4, p[4][..|p[4]| - 1])))
      && Join(p, ':') == s
  {
    SignatureShape(s);
    SplitPiecesFree(s, ':');
    JoinSplit(s, ':');
    var b := Chomp(s);
    var q := Split(b, ':');
    if b != s {
      assert s == b + ['\n'];
      SplitSnoc(b, '\n', ':');
      var p := Split(s, ':');
      assert p[..4] == q[..4];
      assert forall j :: 0 <= j < 4 ==> p[j] == q[j];
      assert p[4][..|p[4]| - 1] == q[4];
    }
  }

  /** Unpacking a signature into its fields, as `signature.split(":")` does. */
  function Decode(s: string): (r: Route)
    requires SignatureMatches(s)
    ensures Encode(r) == s
    ensures r.alias != "" && r.ip != "" && r.port != "" && r.server != "" && r.path != ""
    ensures AllDigits(r.port) && Chunk(1, r.ip) && Chunk(3, r.server)
    ensures ':' !in r.ip && ':' !in r.port
  {
    AcceptedFields(s);
    var p := Split(s, ':');
    JoinFive(p);
    Route(p[0], p[1], p[2], p[3], p[4])
  }

  /** Decoding undoes encoding for any route whose encoding is accepted and whose
      fields are colon-free. */
  lemma DecodeEncode(r: Route)
    requires SignatureMatches(Encode(r))
    requires ':' !in r.alias && ':' !in r.ip && ':' !in r.port && ':' !in r.server && ':' !in r.path
    ensures Decode(Encode(r)) == r
  {
    var p := [r.alias, r.ip, r.port, r.server, r.path];
    JoinFive(p);
    SplitJoin(p, ':');
  }

  /** A stored directive: a dict whose "signature" is a string the grammar accepts. */
  predicate IsDirective(d: Value)
  {
    d.Dict? && "signature" in d.entries && d.entries["signature"].Str?
    && SignatureMatches(d.entries["signature"].s)
  }

  function SignatureOf(d: Value): string
    requires IsDirective(d)
  {
    d.entries["signature"].s
  }

  function RouteOf(d: Value): Route
    requires IsDirective(d)
  {
    Decode(SignatureOf(d))
  }

  /** The validation chain of the `directives` setters of Listen and Nrt. */
  function CheckDirective(d: Value): (st: Status)
    ensures st == Pass <==> IsDirective(d)
    ensures d.Null? ==> st == Raised(ValueError)
    ensures !d.Null? && !d.Dict? ==> st == Raised(TypeError)
    ensures d.Dict? && "signature" !in d.entries ==> st == Raised(ValueError)
    ensures d.Dict? && "signature" in d.entries && !d.entries["signature"].Str? ==> st == Raised(TypeError)
    ensures (d.Dict? && "signature" in d.entries && d.entries["signature"].Str?
             && !SignatureMatches(d.entries["signature"].s)) ==> st == Raised(ValueError)
  {
    if d.Null? then Raised(ValueError)
    else if !d.Dict? then Raised(TypeError)
    else if "signature" !in d.entries then Raised(ValueError)
    else if !d.entries["signature"].Str? then Raised(TypeError)
    else if !SignatureMatches(d.entries["signature"].s) then Raised(ValueError)
    else Pass
  }
}
