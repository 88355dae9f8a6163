/**
  validate_zone_and_region, and the runner's _resolve_zone_and_region that reads
  the same two fields again.
*/
module ZoneRegion {
  import opened Wrappers
  import opened Text

  // ---------------------------------------------------------------- sanitizing

  function LowerChar(c: char): char {
    if 'A' <= c <= 'Z' then c - 'A' + 'a' else c
  }

  function Lower(s: string): string {
    seq(|s|, i requires 0 <= i < |s| => LowerChar(s[i]))
  }

  predicate Placeholder(s: string) {
    Lower(s) == "string" || Lower(s) == "none" || Lower(s) == "null" || Lower(s) == "undefined"
  }

  /** sanitize_optional_str and _clean_str. */
  function Sanitize(val: Option<string>): (r: Option<string>)
    ensures r.Some? ==> r.value != ""
  {
    match val
    case None => None
    case Some(s) =>
      var v := Trim(s, PySpace);
      if v == "" || Placeholder(v) then None else Some(v)
  }

  // ---------------------------------------------------------------- shapes

  predicate IsLower(c: char) { 'a' <= c <= 'z' }

  predicate IsLowerOrDigit(c: char) { 'a' <= c <= 'z' || '0' <= c <= '9' }

  predicate Word(s: string) { s != [] && forall c :: c in s ==> IsLower(c) }

  predicate Name(s: string) { s != [] && forall c :: c in s ==> IsLowerOrDigit(c) }

  predicate Letter(s: string) { |s| == 1 && IsLower(s[0]) }

  predicate ZoneShape(s: string) {
    var p := Split(s, '-');
    |p| == 3 && Word(p[0]) && Name(p[1]) && Letter(p[2])
  }

  predicate RegionShape(s: string) {
    var p := Split(s, '-');
    |p| == 2 && Word(p[0]) && Name(p[1])
  }

  /** In Python, `$` also matches before a final newline. */
  predicate ZoneMatch(s: string) {
    ZoneShape(s) || (s != [] && s[|s| - 1] == '\n' && ZoneShape(s[..|s| - 1]))
  }

  predicate RegionMatch(s: string) {
    RegionShape(s) || (s != [] && s[|s| - 1] == '\n' && RegionShape(s[..|s| - 1]))
  }

  /** s.rsplit("-", 1)[0], and "-".join(s.split("-")[:-1]) when there is a dash. */
  function WithoutLastSegment(s: string): string {
    var p := Split(s, '-');
    if |p| == 1 then s else Join(p[..|p| - 1], '-')
  }

  // ---------------------------------------------------------------- validation

  datatype Rejection = Swapped | ZoneIsRegion | BadZone | RegionIsZone | BadRegion | Mismatch(expected: string)

  type Pair = (Option<string>, Option<string>)

  function Validate(zone: Option<string>, region: Option<string>): Result<Pair, Rejection> {
    var z, r := Sanitize(zone), Sanitize(region);
    if z.Some? && r.Some? && RegionMatch(z.value) && ZoneMatch(r.value) then Err(Swapped)
    else if z.Some? && !ZoneMatch(z.value) then
      (if RegionMatch(z.value) then Err(ZoneIsRegion) else Err(BadZone))
    else if r.Some? && !RegionMatch(r.value) then
      (if ZoneMatch(r.value) then Err(RegionIsZone) else Err(BadRegion))
    else if z.Some? && r.Some? then
      (if r.value != WithoutLastSegment(z.value) then Err(Mismatch(WithoutLastSegment(z.value))) else Ok((z, r)))
    else if z.Some? then Ok((z, Some(WithoutLastSegment(z.value))))
    else Ok((z, r))
  }

  /** The request model whose validator overwrites its own two fields. */
  class GcpTargetRequest {
    var zone: Option<string>
    var region: Option<string>

    constructor (zone: Option<string>, region: Option<string>)
      ensures this.zone == zone && this.region == region
    {
      this.zone, this.region := zone, region;
    }

    method ValidateTarget() returns (error: Option<Rejection>)
      modifies this
      ensures match Validate(old(zone), old(region))
              case Ok((z, r)) => error == None && zone == z && region == r
              case Err(e) => error == Some(e) && zone == old(zone) && region == old(region)
      ensures error == None <==>
                && (Sanitize(old(zone)).Some? ==> ZoneShape(Sanitize(old(zone)).value))
                && (Sanitize(old(region)).Some? ==> RegionShape(Sanitize(old(region)).value))
                && (Sanitize(old(zone)).Some? && Sanitize(old(region)).Some? ==>
                      Sanitize(old(region)).value == WithoutLastSegment(Sanitize(old(zone)).value))
      ensures error == None && zone.Some? ==> ZoneShape(zone.value) && region == Some(WithoutLastSegment(zone.value))
      ensures error == None && region.Some? ==> RegionShape(region.value)
    {
      hide Sanitize, ZoneShape, RegionShape, ZoneMatch, RegionMatch, WithoutLastSegment;
      AcceptedExactly(zone, region);
      if Validate(zone, region).Ok? { AcceptedPair(zone, region); }
      match Validate(zone, region) {
        case Ok((z, r)) =>
          zone, region := z, r;
          return None;
        case Err(e) =>
          return Some(e);
      }
    }
  }

  // ---------------------------------------------------------------- resolution

  predicate Swaps(z: string, r: Option<string>) {
    z != "" && r.Some? && RegionMatch(z) && ZoneMatch(r.value)
  }

  function Resolve(rawZone: Option<string>, rawRegion: Option<string>, defaultZone: string,
                   defaultRegion: string): (string, string) {
    var clean := Sanitize(rawZone);
    var z0 := if clean.Some? then clean.value else defaultZone;
    var r0 := Sanitize(rawRegion);
    var (z, r) := if Swaps(z0, r0) then (r0.value, Some(z0)) else (z0, r0);
    (z, if r.Some? then r.value else if '-' in z then WithoutLastSegment(z) else defaultRegion)
  }

  // ---------------------------------------------------------------- facts about the shapes

  lemma ShapeChars(s: string)
    requires ZoneShape(s) || RegionShape(s)
    ensures s != [] && forall c :: c in s ==> IsLowerOrDigit(c) || c == '-'
    ensures '-' in s
  {
    hide Split;
    var p := Split(s, '-');
    JoinSplit(s, '-');
    if |p| == 3 {
      assert s == p[0] + ['-'] + (p[1] + ['-'] + p[1..][1..][0]) by { assert Join(p[1..], '-') == p[1] + ['-'] + p[2]; }
    } else {
      assert s == p[0] + ['-'] + p[1..][0];
    }
  }

  /** No text is both a zone and a region. */
  lemma ShapesExclude(s: string)
    ensures !(ZoneShape(s) && RegionShape(s))
  {
    hide Split;
  }

  /** A shaped text survives sanitizing. */
  lemma ShapedIsClean(s: string)
    requires ZoneShape(s) || RegionShape(s)
    ensures Sanitize(Some(s)) == Some(s)
  {
    hide ZoneShape, RegionShape, Trim;
    ShapeChars(s);
    assert s[0] in s && s[|s| - 1] in s;
    TrimFixed(s, PySpace);
    var i :| 0 <= i < |s| && s[i] == '-';
    assert Lower(s)[i] == '-';
  }

  lemma SanitizedIsClean(val: Option<string>)
    ensures Sanitize(Sanitize(val)) == Sanitize(val)
  {
    hide Trim, Placeholder;
    if val.Some? { TrimIdempotent(val.value, PySpace); }
  }

  /** Sanitized text has no final newline, so the regexes accept the plain shapes only. */
  lemma MatchIsShape(val: Option<string>)
    ensures Sanitize(val).Some? ==>
              var s := Sanitize(val).value;
              (ZoneMatch(s) <==> ZoneShape(s)) && (RegionMatch(s) <==> RegionShape(s))
  {
    hide Trim, Placeholder, ZoneShape, RegionShape;
    if val.Some? { TrimEnds(val.value, PySpace); }
  }

  /** The region of a zone is shaped like one. */
  lemma ZoneRegionShape(z: string)
    requires ZoneShape(z)
    ensures RegionShape(WithoutLastSegment(z))
  {
    hide Split;
    var p := Split(z, '-');
    SplitPieceHasNoSep(z, '-', 0);
    SplitPieceHasNoSep(z, '-', 1);
    assert p[..2] == [p[0], p[1]];
    SplitJoin(p[..2], '-');
  }

  // ---------------------------------------------------------------- in so many words

  /** A zone: lower-case letters, letters or digits, and one letter, with dashes between them. */
  lemma ZoneShapeMeaning(s: string)
    ensures ZoneShape(s) <==>
              exists a, b, c: char :: Word(a) && Name(b) && IsLower(c) && s == a + ['-'] + (b + ['-'] + [c])
  {
    hide Split;
    if ZoneShape(s) {
      var p := Split(s, '-');
      JoinSplit(s, '-');
      assert p[1..][1..] == [p[2]] && p[2] == [p[2][0]];
      assert Join(p[1..], '-') == p[1] + ['-'] + p[2];
      assert Word(p[0]) && Name(p[1]) && IsLower(p[2][0]) && s == p[0] + ['-'] + (p[1] + ['-'] + [p[2][0]]);
    }
    if a, b, c: char :| Word(a) && Name(b) && IsLower(c) && s == a + ['-'] + (b + ['-'] + [c]) {
      SplitThree(a, b, c);
    }
  }

  lemma SplitThree(a: string, b: string, c: char)
    requires Word(a) && Name(b) && IsLower(c)
    ensures Split(a + ['-'] + (b + ['-'] + [c]), '-') == [a, b, [c]]
  {
    hide Split;
    SplitPrefix(a, b + ['-'] + [c], '-');
    SplitPrefix(b, [c], '-');
    SplitNoSep([c], '-');
    assert [a] + ([b] + [[c]]) == [a, b, [c]];
  }

  /** A region: the same without the last letter. */
  lemma RegionShapeMeaning(s: string)
    ensures RegionShape(s) <==> exists a, b :: Word(a) && Name(b) && s == a + ['-'] + b
  {
    hide Split;
    if RegionShape(s) {
      var p := Split(s, '-');
      JoinSplit(s, '-');
      assert p[1..] == [p[1]];
      assert Word(p[0]) && Name(p[1]) && s == p[0] + ['-'] + p[1];
    }
    if a, b :| Word(a) && Name(b) && s == a + ['-'] + b {
      SplitTwo(a, b);
    }
  }

  lemma SplitTwo(a: string, b: string)
    requires Word(a) && Name(b)
    ensures Split(a + ['-'] + b, '-') == [a, b]
  {
    hide Split;
    SplitPrefix(a, b, '-');
    SplitNoSep(b, '-');
  }

  /** What is left of a text when its last segment, and the dash before it, are dropped. */
  lemma LastSegmentMeaning(front: string, last: string)
    requires '-' !in last
    ensures WithoutLastSegment(last) == last
    ensures WithoutLastSegment(front + ['-'] + last) == front
  {
    hide Split, Join;
    SplitNoSep(last, '-');
    SplitAppend(front + ['-'], last, '-');
    SplitAppend(front, ['-'], '-');
    DashAlone();
    var f := Split(front, '-');
    assert f[|f| - 1] + [] == f[|f| - 1] && f == f[..|f| - 1] + [f[|f| - 1]];
    assert Glue(f, [[], []]) == f + [[]];
    assert (f + [[]])[..|f|] == f && [] + last == last;
    assert Split(front + ['-'] + last, '-') == Glue(f + [[]], [last]) == f + [last];
    assert (f + [last])[..|f|] == f;
    JoinSplit(front, '-');
  }

  lemma DashAlone()
    ensures Split(['-'], '-') == [[], []]
  {
    assert ['-'][1..] == [];
  }

  /** A part is absent if it is missing, blank, or a placeholder in any mix of cases; otherwise it is the text without
      the blanks around it. */
  lemma SanitizeMeaning(left: string, text: string, right: string)
    requires Blank(left, PySpace) && Blank(right, PySpace) && Trimmed(text, PySpace)
    ensures Sanitize(None) == None
    ensures Sanitize(Some(left + text + right))
         == if text == "" || Lower(text) in ["string", "none", "null", "undefined"] then None else Some(text)
  {
    hide Trim;
    TrimPadded(left, text, right, PySpace);
  }

  lemma LowerMeaning(s: string, i: nat)
    requires i < |s|
    ensures |Lower(s)| == |s|
    ensures Lower(s)[i] == if 'A' <= s[i] <= 'Z' then ((s[i] as int) + 32) as char else s[i]
  {
  }

  /** A request with neither part gets the default zone, and the region of that zone if it has a dash in it. */
  lemma ResolveNothing(defaultZone: string, defaultRegion: string, front: string, last: string)
    requires '-' !in last
    ensures '-' !in defaultZone ==> Resolve(None, None, defaultZone, defaultRegion) == (defaultZone, defaultRegion)
    ensures defaultZone == front + ['-'] + last ==>
              Resolve(None, None, defaultZone, defaultRegion) == (defaultZone, front)
  {
    hide ZoneMatch, RegionMatch, WithoutLastSegment;
    LastSegmentMeaning(front, last);
  }

  /** Texts the wrong way round are put right by the resolver. */
  lemma ResolveSwaps(region: string, zone: string, defaultZone: string, defaultRegion: string)
    requires RegionShape(region) && ZoneShape(zone)
    ensures Resolve(Some(region), Some(zone), defaultZone, defaultRegion) == (zone, region)
  {
    hide ZoneShape, RegionShape, WithoutLastSegment;
    ShapedIsClean(region);
    ShapedIsClean(zone);
  }

  // ---------------------------------------------------------------- the theorems

  /** Accepted exactly: each part absent or well shaped, and if both are there the region is the zone's. */
  lemma AcceptedExactly(zone: Option<string>, region: Option<string>)
    ensures var z, r := Sanitize(zone), Sanitize(region);
            Validate(zone, region).Ok? <==>
              && (z.Some? ==> ZoneShape(z.value))
              && (r.Some? ==> RegionShape(r.value))
              && (z.Some? && r.Some? ==> r.value == WithoutLastSegment(z.value))
  {
    hide Sanitize, ZoneShape, RegionShape, ZoneMatch, RegionMatch, WithoutLastSegment;
    MatchIsShape(zone);
    MatchIsShape(region);
    var z, r := Sanitize(zone), Sanitize(region);
    if z.Some? { ShapesExclude(z.value); }
  }

  /** Which complaint a rejected request gets. */
  lemma RejectedExactly(zone: Option<string>, region: Option<string>)
    ensures var z, r, v := Sanitize(zone), Sanitize(region), Validate(zone, region);
            var zoneIsZone, zoneIsRegion := z.Some? && ZoneShape(z.value), z.Some? && RegionShape(z.value);
            var regionIsZone, regionIsRegion := r.Some? && ZoneShape(r.value), r.Some? && RegionShape(r.value);
            && (v == Err(Swapped) <==> zoneIsRegion && regionIsZone)
            && (v == Err(ZoneIsRegion) <==> zoneIsRegion && !regionIsZone)
            && (v == Err(BadZone) <==> z.Some? && !zoneIsZone && !zoneIsRegion)
            && (v == Err(RegionIsZone) <==> regionIsZone && (z.None? || zoneIsZone))
            && (v == Err(BadRegion) <==> r.Some? && !regionIsRegion && !regionIsZone && (z.None? || zoneIsZone))
            && (v.Err? && v.error.Mismatch? <==>
                  zoneIsZone && regionIsRegion && r.value != WithoutLastSegment(z.value))
            && (v.Err? && v.error.Mismatch? ==> v.error.expected == WithoutLastSegment(z.value))
  {
    hide Sanitize, ZoneShape, RegionShape, ZoneMatch, RegionMatch, WithoutLastSegment;
    MatchIsShape(zone);
    MatchIsShape(region);
    var z, r := Sanitize(zone), Sanitize(region);
    if z.Some? { ShapesExclude(z.value); }
    if r.Some? { ShapesExclude(r.value); }
  }

  /** An accepted zone always comes with its own region, given or derived. */
  lemma AcceptedPair(zone: Option<string>, region: Option<string>)
    requires Validate(zone, region).Ok?
    ensures var (z, r) := Validate(zone, region).value;
            && z == Sanitize(zone)
            && (z.Some? ==> ZoneShape(z.value) && r == Some(WithoutLastSegment(z.value)))
            && (z.None? ==> r == Sanitize(region))
            && (r.Some? ==> RegionShape(r.value))
  {
    AcceptedExactly(zone, region);
    hide Sanitize, ZoneShape, RegionShape, ZoneMatch, RegionMatch, WithoutLastSegment;
    if Sanitize(zone).Some? { ZoneRegionShape(Sanitize(zone).value); }
  }

  /** Validating an accepted pair again returns the same pair. */
  lemma ValidationIsStable(zone: Option<string>, region: Option<string>)
    requires Validate(zone, region).Ok?
    ensures var (z, r) := Validate(zone, region).value;
            Validate(z, r) == Ok((z, r))
  {
    hide Sanitize, ZoneShape, RegionShape, ZoneMatch, RegionMatch, WithoutLastSegment;
    AcceptedPair(zone, region);
    var (z, r) := Validate(zone, region).value;
    SanitizedIsClean(zone);
    SanitizedIsClean(region);
    if r.Some? { ShapedIsClean(r.value); }
    AcceptedExactly(z, r);
  }

  lemma ShapeIsNotOther(s: string)
    ensures RegionShape(s) ==> !ZoneMatch(s)
    ensures ZoneShape(s) ==> !RegionMatch(s)
  {
    hide ZoneShape, RegionShape;
    ShapesExclude(s);
    if RegionShape(s) || ZoneShape(s) {
      ShapeChars(s);
      assert s[|s| - 1] in s;
    }
  }

  /** Whatever the defaults, the resolver never swaps the two parts of an accepted request. */
  lemma AcceptedNeverSwaps(zone: Option<string>, region: Option<string>, defaultZone: string)
    requires Validate(zone, region).Ok?
    ensures var (z, r) := Validate(zone, region).value;
            !Swaps(if Sanitize(z).Some? then Sanitize(z).value else defaultZone, Sanitize(r))
  {
    hide Sanitize, ZoneShape, RegionShape, ZoneMatch, RegionMatch, WithoutLastSegment;
    AcceptedPair(zone, region);
    var (z, r) := Validate(zone, region).value;
    if r.Some? {
      ShapedIsClean(r.value);
      ShapeIsNotOther(r.value);
    } else {
      SanitizedIsClean(region);
      SanitizedIsClean(None);
    }
  }

  /** For an accepted request with a zone, the resolver returns the validated pair. */
  lemma ResolverKeepsAcceptedPair(zone: Option<string>, region: Option<string>, defaultZone: string,
                                  defaultRegion: string)
    requires Validate(zone, region).Ok? && Sanitize(zone).Some?
    ensures var (z, r) := Validate(zone, region).value;
            z.Some? && r.Some? && Resolve(z, r, defaultZone, defaultRegion) == (z.value, r.value)
  {
    hide Sanitize, ZoneShape, RegionShape, ZoneMatch, RegionMatch, WithoutLastSegment;
    AcceptedPair(zone, region);
    AcceptedNeverSwaps(zone, region, defaultZone);
    var (z, r) := Validate(zone, region).value;
    SanitizedIsClean(zone);
    ShapedIsClean(r.value);
  }

  /** For an accepted request with a region only, the resolver pairs it with the default zone:
      the two agree exactly when the default zone lies in that region. */
  lemma RegionOnlyAgreesExactly(region: Option<string>, defaultZone: string, defaultRegion: string)
    requires Validate(None, region).Ok? && Sanitize(region).Some? && ZoneShape(defaultZone)
    ensures var (z, r) := Resolve(None, Sanitize(region), defaultZone, defaultRegion);
            && (z, r) == (defaultZone, Sanitize(region).value)
            && (Validate(Some(z), Some(r)).Ok? <==> Sanitize(region).value == WithoutLastSegment(defaultZone))
  {
    hide ZoneShape, RegionShape, ZoneMatch, RegionMatch, WithoutLastSegment, Trim, Placeholder;
    AcceptedPair(None, region);
    var r := Sanitize(region).value;
    ShapedIsClean(r);
    ShapedIsClean(defaultZone);
    ShapeIsNotOther(r);
    AcceptedExactly(Some(defaultZone), Some(r));
  }

  /** The shipped default zone and another region: accepted, and resolved to a pair that validation rejects. */
  lemma RegionOnlyCanDisagree()
    ensures var region := Some("us-east5");
            && Validate(None, region).Ok?
            && Resolve(None, region, "us-central1-a", "us-central1") == ("us-central1-a", "us-east5")
            && Validate(Some("us-central1-a"), region).Err?
  {
    hide Validate, Sanitize, Resolve, ZoneMatch, RegionMatch, WithoutLastSegment, ZoneShape, RegionShape;
    ExampleShapes();
    ShapedIsClean("us-east5");
    ShapedIsClean("us-central1-a");
    SanitizeNone();
    AcceptedExactly(None, Some("us-east5"));
    AcceptedExactly(Some("us-central1-a"), Some("us-east5"));
    RegionOnlyAgreesExactly(Some("us-east5"), "us-central1-a", "us-central1");
  }

  lemma SanitizeNone()
    ensures Sanitize(None) == None
  {
  }

  lemma ExampleShapes()
    ensures RegionShape("us-east5") && ZoneShape("us-central1-a")
    ensures WithoutLastSegment("us-central1-a") != "us-east5"
  {
    hide Split;
    var r, z := ["us", "east5"], ["us", "central1", "a"];
    assert Join(r[1..], '-') == "east5";
    assert Join(r, '-') == "us-east5";
    SplitJoin(r, '-');
    assert z[1..][1..] == ["a"];
    assert Join(z[1..][1..], '-') == "a";
    assert Join(z[1..], '-') == "central1-a";
    assert Join(z, '-') == "us-central1-a";
    SplitJoin(z, '-');
    assert z[..2] == ["us", "central1"];
    assert Join(z[..2], '-') == "us" + "-" + Join(z[..2][1..], '-');
    assert z[..2][1..] == ["central1"];
    assert Join(z[..2], '-') == "us-central1";
    assert "us-central1"[3] != "us-east5"[3];
  }
}
