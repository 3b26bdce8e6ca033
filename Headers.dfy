/** The column normaliser of volcano_app.py: every header label loses its
    leading and trailing whitespace (pandas `str.strip`, which uses Python's
    `str.isspace`), then the legacy label "Elevation (m)" is renamed to
    "Elevation (Meters)". It runs before any selection by label. */
module Headers {

  const LegacyElevation: string := "Elevation (m)"
  const Elevation: string := "Elevation (Meters)"

  /** The code points Python's `str.isspace` accepts. */
  predicate IsSpace(c: char)
  {
    var n := c as int;
    (0x09 <= n <= 0x0D) || (0x1C <= n <= 0x20) || n == 0x85 || n == 0xA0 ||
    n == 0x1680 || (0x2000 <= n <= 0x200A) || n == 0x2028 || n == 0x2029 ||
    n == 0x202F || n == 0x205F || n == 0x3000
  }

  predicate AllSpace(s: string)
  {
    forall k :: 0 <= k < |s| ==> IsSpace(s[k])
  }

  /** No whitespace at either end. */
  predicate IsStripped(s: string)
  {
    s == [] || (!IsSpace(s[0]) && !IsSpace(s[|s| - 1]))
  }

  /** `s` without its leading whitespace: the longest suffix of `s` that
      starts with a non-space character, or empty. */
  function TrimStart(s: string): (r: string)
    ensures |r| <= |s| && r == s[|s| - |r|..]
    ensures AllSpace(s[..|s| - |r|])
    ensures r == [] || !IsSpace(r[0])
  {
    if s != [] && IsSpace(s[0]) then TrimStart(s[1..]) else s
  }

  /** `s` without its trailing whitespace. */
  function TrimEnd(s: string): (r: string)
    ensures |r| <= |s| && r == s[..|r|]
    ensures AllSpace(s[|r|..])
    ensures r == [] || !IsSpace(r[|r| - 1])
  {
    if s != [] && IsSpace(s[|s| - 1]) then TrimEnd(s[..|s| - 1]) else s
  }

  /** `r` is the piece of `s` starting at `i`, with only whitespace around it. */
  ghost predicate PaddedAt(s: string, r: string, i: int)
  {
    0 <= i <= |s| - |r| && r == s[i..i + |r|] && AllSpace(s[..i]) && AllSpace(s[i + |r|..])
  }

  /** Python's `str.strip()` with no argument: no whitespace is left at
      either end. */
  function Strip(s: string): (r: string)
    ensures IsStripped(r)
  {
    TrimEnd(TrimStart(s))
  }

  /** Strip only cuts away whitespace: its result is a slice of `s` with
      nothing but whitespace on either side. */
  lemma {:induction false} StripIsPadded(s: string)
    ensures exists i :: PaddedAt(s, Strip(s), i)
  {
    var t := TrimStart(s);
    var r := TrimEnd(t);
    assert Strip(s) == r;
    var i := |s| - |t|;
    assert t == s[i..] && r == t[..|r|];
    assert t[..|r|] == s[i..i + |r|];
    assert t[|r|..] == s[i + |r|..];
    assert PaddedAt(s, r, i);
  }

  /** TrimStart removes exactly a leading run of whitespace. */
  lemma {:induction false} TrimStartPadded(lead: string, rest: string)
    requires AllSpace(lead)
    requires rest == [] || !IsSpace(rest[0])
    ensures TrimStart(lead + rest) == rest
  {
    if lead == [] {
      assert lead + rest == rest;
    } else {
      assert (lead + rest)[0] == lead[0];
      assert (lead + rest)[1..] == lead[1..] + rest;
      TrimStartPadded(lead[1..], rest);
    }
  }

  /** TrimEnd removes exactly a trailing run of whitespace. */
  lemma {:induction false} TrimEndPadded(rest: string, trail: string)
    requires AllSpace(trail)
    requires rest == [] || !IsSpace(rest[|rest| - 1])
    ensures TrimEnd(rest + trail) == rest
  {
    if trail == [] {
      assert rest + trail == rest;
    } else {
      var s := rest + trail;
      assert s[|s| - 1] == trail[|trail| - 1];
      assert s[..|s| - 1] == rest + trail[..|trail| - 1];
      TrimEndPadded(rest, trail[..|trail| - 1]);
    }
  }

  /** Strip is determined by what it keeps: whitespace around a stripped core
      is exactly what it removes. */
  lemma {:induction false} StripPadded(lead: string, core: string, trail: string)
    requires AllSpace(lead) && AllSpace(trail) && IsStripped(core)
    ensures Strip(lead + core + trail) == core
  {
    if core == [] {
      var s := lead + trail;
      assert lead + core + trail == s + [];
      assert AllSpace(s) by {
        forall k | 0 <= k < |s| ensures IsSpace(s[k]) {
          if k < |lead| { assert s[k] == lead[k]; } else { assert s[k] == trail[k - |lead|]; }
        }
      }
      TrimStartPadded(s, []);
    } else {
      assert lead + core + trail == lead + (core + trail);
      TrimStartPadded(lead, core + trail);
      TrimEndPadded(core, trail);
    }
  }

  /** Stripping twice is stripping once. */
  lemma {:induction false} StripIdempotent(s: string)
    ensures Strip(Strip(s)) == Strip(s)
  {
    var r := Strip(s);
    assert TrimStart(r) == r;
    assert TrimEnd(r) == r;
  }

  /** The label the dashboard gives to one raw header. */
  function NormaliseLabel(header: string): (r: string)
    ensures IsStripped(r)
    ensures r != LegacyElevation
    ensures Strip(header) == LegacyElevation ==> r == Elevation
    ensures Strip(header) != LegacyElevation ==> r == Strip(header)
  {
    var t := Strip(header);
    assert Elevation[0] == 'E' && Elevation[|Elevation| - 1] == ')';
    assert Elevation != LegacyElevation by { assert |Elevation| != |LegacyElevation|; }
    if t == LegacyElevation then Elevation else t
  }

  /** Lines 26-27: strip every label, then rename the legacy elevation label.
      Order and number of labels are kept; afterwards no label has whitespace
      at either end and none is the legacy label. */
  function NormaliseHeaders(columns: seq<string>): (r: seq<string>)
    ensures |r| == |columns|
    ensures forall i :: 0 <= i < |r| ==> r[i] == NormaliseLabel(columns[i])
    ensures forall i :: 0 <= i < |r| ==> IsStripped(r[i]) && r[i] != LegacyElevation
  {
    seq(|columns|, i requires 0 <= i < |columns| => NormaliseLabel(columns[i]))
  }

  /** Normalising already-normalised headers changes nothing. */
  lemma {:induction false} NormaliseHeadersIdempotent(columns: seq<string>)
    ensures NormaliseHeaders(NormaliseHeaders(columns)) == NormaliseHeaders(columns)
  {
    var once := NormaliseHeaders(columns);
    forall i | 0 <= i < |once| ensures NormaliseLabel(once[i]) == once[i] {
      StripPadded([], once[i], []);
      assert [] + once[i] + [] == once[i];
    }
  }
}
