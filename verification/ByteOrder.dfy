/** Byte order of names against the order of their UTF-16 code units, and what the
    difference does to discovery. */
module ByteOrder {
  import opened Wrappers
  import opened JsStrings
  import opened Utf8
  import opened PluginDiscovery

  /** Lexicographic order, of bytes or of code points. */
  predicate Lex(a: seq<int>, b: seq<int>) {
    if b == [] then false
    else if a == [] then true
    else a[0] < b[0] || (a[0] == b[0] && Lex(a[1..], b[1..]))
  }

  /** Byte order of the names as they are on disk. */
  predicate LessBytes(a: JsString, b: JsString) { Lex(Buffer(a), Buffer(b)) }

  predicate IsSurrogate(u: CodeUnit) { 0xD800 <= u < 0xE000 }

  /** At the first unit that differs one side is a surrogate and the other lies
      above the surrogates. */
  predicate Crosses(a: JsString, b: JsString) {
    a != [] && b != [] &&
    if a[0] == b[0] then Crosses(a[1..], b[1..])
    else (IsSurrogate(a[0]) && b[0] >= 0xE000) || (a[0] >= 0xE000 && IsSurrogate(b[0]))
  }

  lemma {:induction false} LexAfterPrefix(p: seq<int>, a: seq<int>, b: seq<int>)
    ensures Lex(p + a, p + b) <==> Lex(a, b)
  {
    if p == [] {
      assert p + a == a && p + b == b;
    } else {
      assert (p + a)[1..] == p[1..] + a && (p + b)[1..] == p[1..] + b;
      LexAfterPrefix(p[1..], a, b);
    }
  }

  /** Of two encoded code points the smaller has the smaller byte where they first
      differ. */
  lemma ScalarOrder(c: Scalar, d: Scalar, x: seq<int>, y: seq<int>)
    requires c < d
    ensures Lex(EncodeScalar(c) + x, EncodeScalar(d) + y) && !Lex(EncodeScalar(d) + y, EncodeScalar(c) + x)
  {
    var a, b := EncodeScalar(c), EncodeScalar(d);
    var k := FirstDifference(c, d);
    var p := a[..k];
    assert a + x == p + (a[k..] + x) && b + y == p + (b[k..] + y);
    LexAfterPrefix(p, a[k..] + x, b[k..] + y);
    LexAfterPrefix(p, b[k..] + y, a[k..] + x);
  }

  /** A well-formed encoding after its lead byte. */
  predicate Continues(b: seq<int>) { forall i :: 1 <= i < |b| ==> 0x80 <= b[i] < 0xC0 }

  /** Sequences of one length order as the numbers they stand for. */
  lemma DigitsOrder(a: seq<int>, b: seq<int>) returns (k: nat)
    requires 1 <= |a| == |b| <= 4 && Continues(a) && Continues(b) && DecodeScalar(a) < DecodeScalar(b)
    ensures k < |a| && a[..k] == b[..k] && a[k] < b[k]
  {
    k := if a[0] != b[0] then 0 else if a[1] != b[1] then 1 else if a[2] != b[2] then 2 else 3;
  }

  lemma Shape(c: Scalar)
    ensures Continues(EncodeScalar(c)) && 1 <= |EncodeScalar(c)| <= 4
  {}

  /** A longer sequence has the larger lead byte. */
  lemma LeadOrder(c: Scalar, d: Scalar)
    requires c < d
    ensures |EncodeScalar(c)| != |EncodeScalar(d)| ==> EncodeScalar(c)[0] < EncodeScalar(d)[0]
  {}

  lemma FirstDifference(c: Scalar, d: Scalar) returns (k: nat)
    requires c < d
    ensures var a, b := EncodeScalar(c), EncodeScalar(d);
            k < |a| && k < |b| && a[..k] == b[..k] && a[k] < b[k]
  {
    hide EncodeScalar;
    ScalarRoundTrip(c);
    ScalarRoundTrip(d);
    Shape(c);
    Shape(d);
    if |EncodeScalar(c)| == |EncodeScalar(d)| {
      k := DigitsOrder(EncodeScalar(c), EncodeScalar(d));
    } else {
      LeadOrder(c, d);
      k := 0;
    }
  }

  /** UTF-8 keeps the order of code points. */
  lemma {:induction false} EncodeOrder(a: seq<Scalar>, b: seq<Scalar>)
    ensures Lex(Encode(a), Encode(b)) <==> Lex(a, b)
  {
    if a != [] { ScalarRoundTrip(a[0]); }
    if b != [] { ScalarRoundTrip(b[0]); }
    if a != [] && b != [] {
      if a[0] == b[0] {
        LexAfterPrefix(EncodeScalar(a[0]), Encode(a[1..]), Encode(b[1..]));
        EncodeOrder(a[1..], b[1..]);
      } else if a[0] < b[0] {
        ScalarOrder(a[0], b[0], Encode(a[1..]), Encode(b[1..]));
      } else {
        ScalarOrder(b[0], a[0], Encode(b[1..]), Encode(a[1..]));
      }
    }
  }

  /** The first code point, and how many units it takes. */
  function Width(a: JsString): (n: nat)
    requires a != []
    ensures 1 <= n <= |a|
  {
    if StartsPair(a) then 2 else 1
  }

  lemma FirstScalar(a: JsString)
    requires WellFormed(a) && a != []
    ensures Scalars(a) == [if StartsPair(a) then PairScalar(a[0], a[1]) else a[0]] + Scalars(a[Width(a)..])
    ensures WellFormed(a[Width(a)..]) && (StartsPair(a) <==> IsSurrogate(a[0]))
  {}

  /** Code units and code points order two names alike unless they cross. */
  lemma {:induction false} ScalarsOrder(a: JsString, b: JsString)
    requires WellFormed(a) && WellFormed(b)
    ensures (Less(a, b) <==> Lex(Scalars(a), Scalars(b))) <==> !Crosses(a, b)
  {
    if a != [] { FirstScalar(a); }
    if b != [] { FirstScalar(b); }
    if a != [] && b != [] {
      var x, y := Scalars(a), Scalars(b);
      var n := Width(a);
      if n == Width(b) && a[..n] == b[..n] {
        assert a[0] == a[..n][0] == b[0];
        assert n == 2 ==> a[1] == a[..n][1] == b[1] && a[1..][1..] == a[2..] && b[1..][1..] == b[2..];
        ScalarsOrder(a[n..], b[n..]);
        assert x[1..] == Scalars(a[n..]) && y[1..] == Scalars(b[n..]);
      } else {
        assert a[0] == b[0] ==> n == 2 && a[1] != b[1];
        assert x[0] != y[0];
      }
    }
  }

  /** Byte order and code unit order of two names differ if and only if the names
      cross. */
  lemma LessIsByteOrder(a: JsString, b: JsString)
    requires WellFormed(a) && WellFormed(b)
    ensures (Less(a, b) <==> LessBytes(a, b)) <==> !Crosses(a, b)
  {
    ScalarsOrder(a, b);
    EncodeOrder(Scalars(a), Scalars(b));
  }

  /** A name in the astral planes against one above the surrogates. */
  lemma AstralNameDiffers()
    ensures var tilde, emoji := [0xFF5E], [0xD83D, 0xDE00];
            WellFormed(tilde) && WellFormed(emoji) && Crosses(emoji, tilde) &&
            Less(emoji, tilde) && LessBytes(tilde, emoji)
  {
    var tilde, emoji := [0xFF5E], [0xD83D, 0xDE00];
    FirstScalar(tilde);
    FirstScalar(emoji);
    EncodeOrder(Scalars(tilde), Scalars(emoji));
  }

  // ---- Discovery ----

  predicate PrecedesInBytes(a: Candidate, b: Candidate) {
    a.root < b.root || (a.root == b.root &&
    (a.scope < b.scope || (a.scope == b.scope && LessBytes(a.name, b.name))))
  }

  /** What the documentation of the order promises of a result. */
  ghost predicate IsLeastInBytes(w: Walk, c: Candidate) {
    IsCandidate(w, c) && forall d :: IsCandidate(w, d) && d.pluginId == c.pluginId ==> d == c || PrecedesInBytes(c, d)
  }

  /** `d` claims the ID of `c` in the same directory. */
  predicate Rivals(c: Candidate, d: Candidate) {
    d.root == c.root && d.scope == c.scope && d.pluginId == c.pluginId
  }

  /** File names decode to well-formed strings. */
  ghost predicate NamesWellFormed(w: Walk) {
    forall root, scope, name :: name in NamesIn(w.fs, root, scope) ==> WellFormed(name)
  }

  lemma {:induction false} CrossesIrreflexive(a: JsString)
    ensures !Crosses(a, a)
  {
    if a != [] {
      CrossesIrreflexive(a[1..]);
    }
  }

  lemma {:induction false} LexAsymmetric(a: seq<int>, b: seq<int>)
    ensures !(Lex(a, b) && Lex(b, a))
  {
    if a != [] && b != [] {
      LexAsymmetric(a[1..], b[1..]);
    }
  }

  lemma RivalOrder(w: Walk, c: Candidate, d: Candidate)
    requires NamesWellFormed(w) && IsCandidate(w, c) && IsCandidate(w, d) && Rivals(c, d) && Precedes(c, d)
    ensures PrecedesInBytes(c, d) <==> !Crosses(c.name, d.name)
  {
    LessIsByteOrder(c.name, d.name);
  }

  /** A result is the least in byte order if and only if it crosses no rival. */
  lemma WinnerInBytes(w: Walk, c: Candidate)
    requires NamesWellFormed(w) && c in Discovered(w)
    ensures IsLeastInBytes(w, c) <==> forall d :: IsCandidate(w, d) && Rivals(c, d) ==> !Crosses(c.name, d.name)
  {
    hide Discovered, IsCandidate, LessBytes, Less, Crosses;
    FoundIsLeast(w, c);
    CrossesIrreflexive(c.name);
    forall d | IsCandidate(w, d) && d.pluginId == c.pluginId && d != c
      ensures PrecedesInBytes(c, d) <==> Rivals(c, d) ==> !Crosses(c.name, d.name)
    {
      if Rivals(c, d) {
        RivalOrder(w, c, d);
      }
    }
  }

  lemma OneLeastInBytes(w: Walk, c: Candidate, d: Candidate)
    requires IsLeastInBytes(w, c) && IsLeastInBytes(w, d) && c.pluginId == d.pluginId
    ensures c == d
  {
    LexAsymmetric(Buffer(c.name), Buffer(d.name));
  }

  /** Discovery is the first match in root, scope and byte order of name if and only
      if no result crosses a rival. */
  lemma DiscoveryInBytes(w: Walk)
    requires NamesWellFormed(w)
    ensures (forall c :: c in Discovered(w) <==> IsLeastInBytes(w, c)) <==>
      forall c, d :: c in Discovered(w) && IsCandidate(w, d) && Rivals(c, d) ==> !Crosses(c.name, d.name)
  {
    hide Discovered, IsCandidate, LessBytes, Less, Crosses;
    forall c | c in Discovered(w)
      ensures IsLeastInBytes(w, c) <==> forall d :: IsCandidate(w, d) && Rivals(c, d) ==> !Crosses(c.name, d.name)
    {
      WinnerInBytes(w, c);
    }
    if forall c <- Discovered(w) :: IsLeastInBytes(w, c) {
      forall c | IsLeastInBytes(w, c) ensures c in Discovered(w) {
        var f := FoundForEach(w, c);
        OneLeastInBytes(w, f, c);
      }
    }
  }

  /** A directory that lists two packages with one ID. */
  lemma TwoPackages(a: JsString, b: JsString) returns (w: Walk, c: Candidate, d: Candidate)
    requires a != b && WellFormed(a) && WellFormed(b)
    ensures NamesWellFormed(w) && c.name == a && d.name == b && Rivals(c, d)
    ensures forall e :: IsCandidate(w, e) <==> e == c || e == d
  {
    hide WellFormed;
    var pkg := Package(Some("id"), NoMain, None, None);
    var entry := Entry(Directory, Parsed(pkg));
    var names := [a, b];
    var fs := FileSystem(map[("root", "scope") := Listing(names)],
                         map[("root", "scope", a) := entry, ("root", "scope", b) := entry]);
    w := Walk(fs, ["root"], ["scope"], ["id"]);
    c := Candidate(0, 0, a, "id", pkg);
    d := Candidate(0, 0, b, "id", pkg);
    assert NamesIn(fs, "root", "scope") == names;
    assert a in names && b in names && forall n <- names :: n == a || n == b;
  }

  /** U+1F600 against U+FF5E: the later one in byte order is the result. */
  lemma ByteOrderMisses() returns (w: Walk, c: Candidate)
    ensures NamesWellFormed(w) && c in Discovered(w) && !IsLeastInBytes(w, c)
  {
    var tilde, emoji := [0xFF5E], [0xD83D, 0xDE00];
    AstralNameDiffers();
    var d;
    w, c, d := TwoPackages(emoji, tilde);
    hide Less, Crosses, LessBytes, WellFormed, IsCandidate, NamesWellFormed, Discovered;
    FoundIsLeast(w, c);
    WinnerInBytes(w, c);
  }
}
