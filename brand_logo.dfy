/** The fuel-brand classifier behind the brand-logo URL
    (backend/.../service/FuelBrandLogoService.java).

    A brand is detected in three priorities: the OCR'd brand field, matched
    fuzzily against the brand table; then the station name against an ordered
    list of case-insensitive regular expressions; then the station name,
    matched fuzzily against the brand table. Anything else is "default". */
module FuelBrandLogo {
  import opened Base
  import opened Text
  import MistralOcr
  import AppConfig
  import DynamoConfig
  import DynamicConfig

  // ---------------------------------------------------------------------
  // Edit distance
  // ---------------------------------------------------------------------

  function Min(a: int, b: int): int {
    if a <= b then a else b
  }

  /** The Levenshtein distance between the first `i` characters of `s` and
      the first `j` characters of `t`, by the textbook recurrence. */
  function Dist(s: string, t: string, i: nat, j: nat): nat
    requires i <= |s| && j <= |t|
    decreases i + j
  {
    if i == 0 then j
    else if j == 0 then i
    else Min(Dist(s, t, i - 1, j - 1) + (if s[i - 1] == t[j - 1] then 0 else 1),
             Min(Dist(s, t, i - 1, j) + 1, Dist(s, t, i, j - 1) + 1))
  }

  /** The Levenshtein distance of two whole strings. */
  function EditDistance(s: string, t: string): nat {
    Dist(s, t, |s|, |t|)
  }

  lemma {:induction false} DistToSelf(s: string, i: nat)
    requires i <= |s|
    ensures Dist(s, s, i, i) == 0
  {
    if i > 0 {
      DistToSelf(s, i - 1);
    }
  }

  lemma EditDistanceToSelf(s: string)
    ensures EditDistance(s, s) == 0
  {
    DistToSelf(s, |s|);
  }

  lemma EditDistanceToEmpty(s: string)
    ensures EditDistance(s, "") == |s| && EditDistance("", s) == |s|
  {
  }

  lemma {:induction false} DistLengthGap(s: string, t: string, i: nat, j: nat)
    requires i <= |s| && j <= |t|
    decreases i + j
    ensures Dist(s, t, i, j) >= i - j && Dist(s, t, i, j) >= j - i
  {
    if i > 0 && j > 0 {
      DistLengthGap(s, t, i - 1, j - 1);
      DistLengthGap(s, t, i - 1, j);
      DistLengthGap(s, t, i, j - 1);
    }
  }

  /** A distance of at most 2 needs lengths that differ by at most 2. */
  lemma EditDistanceLengthGap(s: string, t: string)
    ensures EditDistance(s, t) >= |s| - |t| && EditDistance(s, t) >= |t| - |s|
  {
    DistLengthGap(s, t, |s|, |t|);
  }

  /** `levenshteinDistance`: the (|s1|+1) x (|s2|+1) table filled row by row. */
  method LevenshteinDistance(s1: string, s2: string) returns (d: int)
    ensures d == EditDistance(s1, s2)
  {
    var n, m := |s1|, |s2|;
    var dp := new int[n + 1, m + 1];
    var i := 0;
    while i <= n
      invariant 0 <= i <= n + 1
      invariant forall a, b {:trigger dp[a, b]} | 0 <= a < i && 0 <= b <= m :: dp[a, b] == Dist(s1, s2, a, b)
    {
      FillRow(s1, s2, dp, i);
      i := i + 1;
    }
    d := dp[n, m];
  }

  /** One row of the table, left to right, from the row above it. */
  method FillRow(s1: string, s2: string, dp: array2<int>, i: nat)
    requires dp.Length0 == |s1| + 1 && dp.Length1 == |s2| + 1 && i <= |s1|
    requires forall a, b {:trigger dp[a, b]} | 0 <= a < i && 0 <= b <= |s2| :: dp[a, b] == Dist(s1, s2, a, b)
    modifies dp
    ensures forall a, b {:trigger dp[a, b]} | 0 <= a <= i && 0 <= b <= |s2| :: dp[a, b] == Dist(s1, s2, a, b)
  {
    var m := |s2|;
    var j := 0;
    while j <= m
      invariant 0 <= j <= m + 1
      invariant forall a, b {:trigger dp[a, b]} | 0 <= a < i && 0 <= b <= m :: dp[a, b] == Dist(s1, s2, a, b)
      invariant forall b {:trigger dp[i, b]} | 0 <= b < j :: dp[i, b] == Dist(s1, s2, i, b)
    {
      if i == 0 {
        dp[i, j] := j;
      } else if j == 0 {
        dp[i, j] := i;
      } else {
        dp[i, j] := Min(dp[i - 1, j - 1] + (if s1[i - 1] == s2[j - 1] then 0 else 1),
                        Min(dp[i - 1, j] + 1, dp[i, j - 1] + 1));
      }
      j := j + 1;
    }
  }

  // ---------------------------------------------------------------------
  // Station-name regular expressions
  // ---------------------------------------------------------------------

  /** A pattern `.*f1.*f2...*` compiled with CASE_INSENSITIVE, tagged with the
      brand it stands for. The fragments are lower-case ASCII. */
  datatype NamePattern = NamePattern(fragments: seq<string>, brand: string)

  /** The ordered pattern table; earlier entries win. */
  const StationNamePatterns: seq<NamePattern> := [
    NamePattern(["hpcl"], "hpcl"),
    NamePattern(["hindustan", "petroleum"], "hpcl"),
    NamePattern(["hp", "petrol"], "hpcl"),
    NamePattern(["hp", "petroleum"], "hpcl"),
    NamePattern(["hp", "fuel"], "hpcl"),
    NamePattern(["bharat", "petroleum"], "bpcl"),
    NamePattern(["bpcl"], "bpcl"),
    NamePattern(["british", "petroleum"], "bp"),
    NamePattern(["bp", "petrol"], "bp"),
    NamePattern(["bp", "gas"], "bp"),
    NamePattern(["bp", "fuel"], "bp"),
    NamePattern(["shell"], "shell"),
    NamePattern(["indian", "oil"], "indian-oil"),
    NamePattern(["iocl"], "indian-oil"),
    NamePattern(["reliance"], "reliance"),
    NamePattern(["jio", "bp"], "reliance"),
    NamePattern(["essar"], "essar"),
    NamePattern(["nayara"], "essar"),
    NamePattern(["total"], "total"),
    NamePattern(["adani"], "adani"),
    NamePattern(["gulf"], "gulf"),
    NamePattern(["castrol"], "castrol")
  ]

  /** The characters Java's `.` does not match outside DOTALL mode. */
  predicate IsLineTerminator(c: char) {
    c == '\n' || c == '\r' || c == '\U{0085}' || c == '\U{2028}' || c == '\U{2029}'
  }

  predicate NoLineTerminator(s: string) {
    forall i | 0 <= i < |s| :: !IsLineTerminator(s[i])
  }

  /** Regex semantics: the fragments occur in `s` in this order, without overlap. */
  ghost predicate OccurInOrder(s: string, frags: seq<string>)
    decreases |frags|
  {
    frags == [] ||
    exists i | 0 <= i <= |s| - |frags[0]| ::
      OccursAt(s, frags[0], i) && OccurInOrder(s[i + |frags[0]|..], frags[1..])
  }

  /** The greedy search: take each fragment at its first occurrence. */
  function MatchInOrder(s: string, frags: seq<string>): bool
    decreases |frags|
  {
    if frags == [] then true
    else match IndexOf(s, frags[0], 0)
      case None => false
      case Some(i) => MatchInOrder(s[i + |frags[0]|..], frags[1..])
  }

  lemma OccurInOrderSuffix(t: string, k: nat, frags: seq<string>)
    requires k <= |t|
    requires OccurInOrder(t[k..], frags)
    ensures OccurInOrder(t, frags)
  {
    if frags != [] {
      var f := frags[0];
      var i :| 0 <= i <= |t[k..]| - |f| && OccursAt(t[k..], f, i) && OccurInOrder(t[k..][i + |f|..], frags[1..]);
      assert t[k..][i + |f|..] == t[k + i + |f|..];
      assert t[k + i..k + i + |f|] == t[k..][i..i + |f|];
      assert OccursAt(t, f, k + i);
    }
  }

  /** Taking the first occurrence of each fragment loses no match. */
  lemma GreedyMatchIsExact(s: string, frags: seq<string>)
    ensures MatchInOrder(s, frags) <==> OccurInOrder(s, frags)
  {
    if MatchInOrder(s, frags) {
      GreedyMatchSound(s, frags);
    }
    if OccurInOrder(s, frags) {
      GreedyMatchComplete(s, frags);
    }
  }

  /** A greedy success is a match. */
  lemma {:induction false} GreedyMatchSound(s: string, frags: seq<string>)
    decreases |frags|
    requires MatchInOrder(s, frags)
    ensures OccurInOrder(s, frags)
  {
    if frags != [] {
      var f := frags[0];
      var i0 := IndexOf(s, f, 0).value;
      GreedyMatchSound(s[i0 + |f|..], frags[1..]);
      assert OccursAt(s, f, i0);
    }
  }

  /** A match is found by the greedy search. */
  lemma {:induction false} GreedyMatchComplete(s: string, frags: seq<string>)
    decreases |frags|, 1
    requires OccurInOrder(s, frags)
    ensures MatchInOrder(s, frags)
  {
    if frags != [] {
      var i :| 0 <= i <= |s| - |frags[0]| && OccursAt(s, frags[0], i)
               && OccurInOrder(s[i + |frags[0]|..], frags[1..]);
      GreedyMatchCompleteFrom(s, frags, i);
    }
  }

  /** The same, from a known occurrence `i` of the first fragment. */
  lemma {:induction false} GreedyMatchCompleteFrom(s: string, frags: seq<string>, i: nat)
    decreases |frags|, 0
    requires frags != [] && OccursAt(s, frags[0], i)
    requires OccurInOrder(s[i + |frags[0]|..], frags[1..])
    ensures MatchInOrder(s, frags)
  {
    var f := frags[0];
    var i0 := IndexOf(s, f, 0).value;
    EarlierOccurrenceKeepsRest(s, |f|, i0, i, frags[1..]);
    GreedyMatchComplete(s[i0 + |f|..], frags[1..]);
  }

  /** What follows a later occurrence also follows an earlier one. */
  lemma EarlierOccurrenceKeepsRest(s: string, n: nat, i0: nat, i: nat, rest: seq<string>)
    requires i0 <= i && i + n <= |s|
    requires OccurInOrder(s[i + n..], rest)
    ensures OccurInOrder(s[i0 + n..], rest)
  {
    var t := s[i0 + n..];
    assert t[i - i0..] == s[i + n..];
    OccurInOrderSuffix(t, i - i0, rest);
  }

  /** `Pattern.matcher(name).matches()` for a pattern of the table. */
  function PatternMatches(name: string, pattern: NamePattern): bool {
    NoLineTerminator(name) && MatchInOrder(Lower(name), pattern.fragments)
  }

  /** The first table entry at or after `from` that matches `name`. */
  function FirstMatchingPattern(name: string, from: nat): (r: Option<nat>)
    decreases |StationNamePatterns| - from
    ensures r.Some? ==> from <= r.value < |StationNamePatterns|
    ensures r.Some? ==> PatternMatches(name, StationNamePatterns[r.value])
    ensures r.Some? ==> forall j | from <= j < r.value :: !PatternMatches(name, StationNamePatterns[j])
    ensures r.None? ==> forall j | from <= j < |StationNamePatterns| :: !PatternMatches(name, StationNamePatterns[j])
  {
    if from >= |StationNamePatterns| then None
    else if PatternMatches(name, StationNamePatterns[from]) then Some(from)
    else FirstMatchingPattern(name, from + 1)
  }

  /** A name containing "hpcl" in any letter case is classified by the first
      rule, before any "bp" rule is tried. */
  lemma HpclNameWins(name: string)
    requires NoLineTerminator(name) && Contains(Lower(name), "hpcl")
    ensures FirstMatchingPattern(name, 0) == Some(0)
    ensures StationNamePatterns[0].brand == "hpcl"
  {
    ContainsIffFound(Lower(name), "hpcl");
    assert PatternMatches(name, StationNamePatterns[0]);
  }

  // ---------------------------------------------------------------------
  // The brand table and the classifier
  // ---------------------------------------------------------------------

  /** The fuzzy test of `matchBrand` for one pattern of the table. */
  predicate FuzzyMatch(text: string, pattern: string): (r: bool)
    // the lowered phrase itself, and the empty text, always match
    ensures text == Lower(pattern) ==> r
    ensures text == [] ==> r
    // a text more than two characters longer than the phrase matches only by containing it
    ensures |text| > |pattern| + 2 ==> (r <==> Contains(text, Lower(pattern)))
  {
    var p := Lower(pattern);
    assert text == p ==> OccursAt(text, p, 0);
    assert text == [] ==> OccursAt(p, text, 0);
    EditDistanceLengthGap(text, p);
    Contains(text, p) || Contains(p, text) || EditDistance(text, p) <= 2
  }

  const InitialBrandPatterns: map<string, set<string>> := map[
    "shell" := {"shell", "royal dutch shell"},
    "bp" := {"british petroleum", "bp petrol", "bp gas", "bp fuel"},
    "bpcl" := {"bharat petroleum", "bpcl", "bharatpetroleum"},
    "indian-oil" := {"indian oil", "indianoil", "iocl", "indane"},
    "hpcl" := {"hpcl", "hindustan petroleum", "hp petrol", "hp petroleum", "hp fuel"},
    "reliance" := {"reliance", "reliance industries", "jio-bp"},
    "essar" := {"essar", "nayara"},
    "total" := {"total", "totalenergies"},
    "adani" := {"adani", "adani gas"},
    "gulf" := {"gulf", "gulf oil"},
    "castrol" := {"castrol"}
  ]

  /** The brand field or station name is present and not blank. */
  predicate Usable(s: Option<string>) {
    s.Some? && !IsBlank(s.value)
  }

  /** `text.toLowerCase().trim()`. */
  function Normalize(s: string): (r: string)
    // trimmed, with no upper-case ASCII letter left
    ensures IsTrimmed(r)
    ensures NoUpper(r)
    // empty exactly when the text is all trimmable characters
    ensures r == [] <==> forall i | 0 <= i < |s| :: IsTrimmable(s[i])
  {
    var l := Lower(s);
    var r := Trim(l);
    LowerKeeps(s, l);
    TrimIsTrimmed(l);
    TrimKeepsNoUpper(l, TrimStart(l), r);
    r
  }

  /** No upper-case ASCII letter. */
  predicate NoUpper(x: string) {
    forall k | 0 <= k < |x| :: !('A' <= x[k] <= 'Z')
  }

  lemma NoUpperSlice(x: string, a: nat, b: nat)
    requires NoUpper(x) && a <= b <= |x|
    ensures NoUpper(x[a..b])
  {
    forall k | 0 <= k < b - a
      ensures !('A' <= x[a..b][k] <= 'Z')
    {
      assert x[a..b][k] == x[a + k];
    }
  }

  /** Trimming keeps a text free of upper-case letters. */
  lemma TrimKeepsNoUpper(l: string, t: string, r: string)
    requires NoUpper(l) && t == TrimStart(l) && r == TrimEnd(t)
    ensures NoUpper(r)
  {
    NoUpperSlice(l, |l| - |t|, |l|);
    assert t == l[|l| - |t|..|l|];
    NoUpperSlice(t, 0, |r|);
    assert r == t[0..|r|];
  }

  lemma LowerKeeps(s: string, l: string)
    requires l == Lower(s)
    ensures NoUpper(l)
    ensures (forall k | 0 <= k < |l| :: IsTrimmable(l[k])) <==> (forall k | 0 <= k < |s| :: IsTrimmable(s[k]))
  {
    forall k | 0 <= k < |l|
      ensures !('A' <= l[k] <= 'Z') && (IsTrimmable(l[k]) <==> IsTrimmable(s[k]))
    {
      LowerCharKeeps(s[k]);
    }
  }

  /** Lowering leaves no upper-case letter and moves no character across the
      trimming bound. */
  lemma LowerCharKeeps(c: char)
    ensures !('A' <= LowerChar(c) <= 'Z')
    ensures IsTrimmable(LowerChar(c)) <==> IsTrimmable(c)
  {
    if 'A' <= c <= 'Z' {
      assert LowerChar(c) as int == c as int + 32;
    }
  }

  class BrandLogoService {
    /** `brandPatterns`: brand key to the phrases that identify it. */
    var brandPatterns: map<string, set<string>>

    /** Every brand the regular expressions can yield is a key of the table. */
    ghost predicate Valid()
      reads this
    {
      forall k | 0 <= k < |StationNamePatterns| :: StationNamePatterns[k].brand in brandPatterns
    }

    constructor ()
      ensures Valid() && brandPatterns == InitialBrandPatterns
    {
      brandPatterns := InitialBrandPatterns;
    }

    /** `getSupportedBrands`. */
    function SupportedBrands(): set<string>
      reads this
    {
      brandPatterns.Keys + {"default"}
    }

    ghost predicate IsMatchingKey(text: string, key: string)
      reads this
    {
      key in brandPatterns && exists p | p in brandPatterns[key] :: FuzzyMatch(text, p)
    }

    ghost predicate AnyKeyMatches(text: string)
      reads this
    {
      exists key | key in brandPatterns :: IsMatchingKey(text, key)
    }

    /** `matchBrand`: some key one of whose phrases matches `text`, if there is
        one. The hash map's iteration order is unspecified, so the key and the
        phrase are chosen arbitrarily. */
    method MatchBrand(text: string) returns (r: Option<string>)
      ensures r.Some? ==> IsMatchingKey(text, r.value)
      ensures r.None? <==> !AnyKeyMatches(text)
    {
      var remaining := brandPatterns.Keys;
      while remaining != {}
        invariant remaining <= brandPatterns.Keys
        invariant forall key | key in brandPatterns && key !in remaining :: !IsMatchingKey(text, key)
        decreases remaining
      {
        var key :| key in remaining;
        var patterns := brandPatterns[key];
        var left := patterns;
        while left != {}
          invariant left <= patterns
          invariant forall p | p in patterns && p !in left :: !FuzzyMatch(text, p)
          decreases left
        {
          var pattern :| pattern in left;
          var lowered := Lower(pattern);
          var hit := Contains(text, lowered) || Contains(lowered, text);
          if !hit {
            var d := LevenshteinDistance(text, lowered);
            hit := d <= 2;
          }
          if hit {
            assert FuzzyMatch(text, pattern);
            return Some(key);
          }
          left := left - {pattern};
        }
        remaining := remaining - {key};
      }
      return None;
    }

    /** The brand field is usable and matches some key of the table. */
    ghost predicate BrandFieldDecides(stationBrand: Option<string>)
      reads this
    {
      Usable(stationBrand) && AnyKeyMatches(Normalize(stationBrand.value))
    }

    /** The loop of `detectFuelBrand` over the name patterns, in table order. */
    method MatchStationName(name: string) returns (r: Option<string>)
      ensures FirstMatchingPattern(name, 0).None? ==> r.None?
      ensures FirstMatchingPattern(name, 0).Some? ==>
                r == Some(StationNamePatterns[FirstMatchingPattern(name, 0).value].brand)
    {
      var k := 0;
      while k < |StationNamePatterns|
        invariant 0 <= k <= |StationNamePatterns|
        invariant FirstMatchingPattern(name, 0) == FirstMatchingPattern(name, k)
      {
        if PatternMatches(name, StationNamePatterns[k]) {
          return Some(StationNamePatterns[k].brand);
        }
        k := k + 1;
      }
      return None;
    }

    /** What `detectFuelBrand` may answer, by priority. */
    ghost predicate IsDetected(stationName: Option<string>, stationBrand: Option<string>, r: string)
      reads this
    {
      && r in SupportedBrands()
      // Priority 1: a usable brand field that matches decides.
      && (BrandFieldDecides(stationBrand) ==> IsMatchingKey(Normalize(stationBrand.value), r))
      // Priority 2: otherwise the first matching name pattern decides.
      && ((!BrandFieldDecides(stationBrand) && Usable(stationName)
           && FirstMatchingPattern(stationName.value, 0).Some?)
          ==> r == StationNamePatterns[FirstMatchingPattern(stationName.value, 0).value].brand)
      // Priority 3: otherwise a fuzzy match on the name, else "default".
      && ((!BrandFieldDecides(stationBrand) && Usable(stationName)
           && FirstMatchingPattern(stationName.value, 0).None?)
          ==> if AnyKeyMatches(Normalize(stationName.value))
              then IsMatchingKey(Normalize(stationName.value), r)
              else r == "default")
      && ((!BrandFieldDecides(stationBrand) && !Usable(stationName)) ==> r == "default")
    }

    /** `detectFuelBrand`. */
    method DetectFuelBrand(stationName: Option<string>, stationBrand: Option<string>) returns (r: string)
      requires Valid()
      ensures IsDetected(stationName, stationBrand, r)
    {
      if stationBrand.Some? && !IsBlank(stationBrand.value) {
        var fromBrand := MatchBrand(Normalize(stationBrand.value));
        if fromBrand.Some? {
          return fromBrand.value;
        }
      }
      if stationName.Some? && !IsBlank(stationName.value) {
        var fromPattern := MatchStationName(stationName.value);
        if fromPattern.Some? {
          return fromPattern.value;
        }
        var fromName := MatchBrand(Normalize(stationName.value));
        if fromName.Some? {
          return fromName.value;
        }
      }
      return "default";
    }

    /** `getBrandLogoUrl`: the logo of the detected brand `brand`, in the
        logo bucket and region the configuration properties report. */
    method GetBrandLogoUrl(stationName: Option<string>, stationBrand: Option<string>,
                           config: Option<AppConfig.AppConfiguration>) returns (url: string, ghost brand: string)
      requires Valid()
      ensures IsDetected(stationName, stationBrand, brand)
      ensures url == BuildLogoUrl(DynamicConfig.GetAwsFuelLogosBucketName(config), DynamicConfig.GetAwsRegion(config), brand)
      // nothing usable to go on: the default logo
      ensures !Usable(stationName) && !BrandFieldDecides(stationBrand) ==>
                url == BuildLogoUrl(DynamicConfig.GetAwsFuelLogosBucketName(config), DynamicConfig.GetAwsRegion(config), "default")
    {
      var detected := DetectFuelBrand(stationName, stationBrand);
      brand := detected;
      url := BuildLogoUrl(DynamicConfig.GetAwsFuelLogosBucketName(config), DynamicConfig.GetAwsRegion(config), detected);
    }

    /** `addBrandMapping`: add or replace one brand's phrases. */
    method AddBrandMapping(brandKey: string, patterns: set<string>)
      requires Valid()
      modifies this
      ensures Valid()
      ensures brandKey in brandPatterns && brandPatterns[brandKey] == patterns
      ensures forall k | k in old(brandPatterns) && k != brandKey :: k in brandPatterns && brandPatterns[k] == old(brandPatterns)[k]
      ensures brandPatterns.Keys == old(brandPatterns).Keys + {brandKey}
    {
      brandPatterns := brandPatterns[brandKey := patterns];
    }
  }

  /** `buildLogoUrl`: `String.format` of the virtual-hosted S3 address of
      `<brand>.png`; a null bucket or region is formatted as "null". */
  function BuildLogoUrl(bucket: Option<string>, region: Option<string>, brandKey: string): (r: string)
    // the store's own address of the object `<brand>.png` in the bucket as printed
    ensures r == MistralOcr.ObjectUrl(Shown(bucket), Shown(region), brandKey + ".png")
    // a null bucket names the bucket "null"
    ensures bucket.None? ==> StartsWith(r, "https://null.s3.")
  {
    var r := "https://" + Shown(bucket) + ".s3." + Shown(region) + ".amazonaws.com/" + brandKey + ".png";
    assert bucket.None? ==> r[..16] == "https://null.s3.";
    r
  }

  /** The logo URL addresses exactly the object `<brand>.png` of the bucket:
      reading the key back out of it gives that name. */
  lemma LogoUrlNamesLogoObject(bucket: Option<string>, region: Option<string>, brandKey: string)
    requires '/' !in Shown(bucket) && '/' !in Shown(region)
    ensures MistralOcr.ExtractS3KeyFromUrl(BuildLogoUrl(bucket, region, brandKey), Shown(bucket))
            == Ok(brandKey + ".png")
  {
    MistralOcr.ExtractKeyOfObjectUrl(Shown(bucket), Shown(region), brandKey + ".png");
  }

  /** Settings loaded from DynamoDB never carry the logo bucket, so every
      logo URL names the bucket "null", whatever brand is detected. */
  lemma LoadedLogoUrlNamesNullBucket(configs: map<Option<string>, DynamoConfig.ConfigurationItem>, brandKey: string)
    ensures var config := Some(DynamoConfig.BuildConfiguration(configs));
            StartsWith(BuildLogoUrl(DynamicConfig.GetAwsFuelLogosBucketName(config), DynamicConfig.GetAwsRegion(config), brandKey),
                       "https://null.s3.")
  {
    DynamicConfig.LoadedConfiguration(configs);
  }
}
