/** What trimming, case and decimal digits mean, independently of how they are computed. */
module TextFacts {
  import opened Texts

  // ---- trimming ----

  const SPACES: set<int> := {
    9, 10, 11, 12, 13, 32, 160, 5760, 8192, 8193, 8194, 8195, 8196, 8197, 8198, 8199, 8200, 8201, 8202, 8232, 8233,
    8239, 8287, 12288, 65279}

  predicate AllSpace(s: Text) { forall i | 0 <= i < |s| :: IsSpace(s[i]) }

  lemma SpaceExactly(u: Unit)
    ensures IsSpace(u) <==> u in SPACES
  {
  }

  lemma {:induction false} TrimStartParts(a: Text, s: Text)
    requires AllSpace(a)
    ensures TrimStart(a + s) == TrimStart(s)
  {
    hide IsSpace;
    if a == [] {
      assert a + s == s;
    } else {
      assert (a + s)[1..] == a[1..] + s;
      TrimStartParts(a[1..], s);
    }
  }

  lemma {:induction false} TrimEndParts(s: Text, b: Text)
    requires AllSpace(b)
    ensures TrimEnd(s + b) == TrimEnd(s)
  {
    hide IsSpace;
    if b == [] {
      assert s + b == s;
    } else {
      assert (s + b)[..|s + b| - 1] == s + b[..|b| - 1];
      TrimEndParts(s, b[..|b| - 1]);
    }
  }

  lemma {:induction false} TrimStartCut(s: Text)
    ensures AllSpace(s[..|s| - |TrimStart(s)|])
  {
    hide IsSpace;
    if s != [] && IsSpace(s[0]) {
      TrimStartCut(s[1..]);
      var n := |s| - |TrimStart(s)|;
      forall i | 0 <= i < n ensures IsSpace(s[i]) {
        if i > 0 { assert s[1..][..n - 1][i - 1] == s[i]; }
      }
    }
  }

  lemma {:induction false} TrimEndCut(s: Text)
    ensures AllSpace(s[|TrimEnd(s)|..])
  {
    hide IsSpace;
    if s != [] && IsSpace(s[|s| - 1]) {
      var init := s[..|s| - 1];
      TrimEndCut(init);
      var n := |TrimEnd(s)|;
      forall i | n <= i < |s| ensures IsSpace(s[i]) {
        if i < |s| - 1 { assert init[n..][i - n] == s[i]; }
      }
    }
  }

  /** Space, the text, space. */
  predicate Padded(s: Text, before: Text, t: Text, after: Text) {
    AllSpace(before) && AllSpace(after) && s == before + t + after
  }

  lemma Suffix(s: Text, t: Text)
    requires |t| <= |s| && t == s[|s| - |t|..]
    ensures s == s[..|s| - |t|] + t
  {
  }

  lemma TrimCut(s: Text) returns (before: Text, after: Text)
    ensures Padded(s, before, Trim(s), after)
  {
    var rest, t := TrimStart(s), Trim(s);
    TrimStartCut(s);
    TrimEndCut(rest);
    Suffix(s, rest);
    before, after := s[..|s| - |rest|], rest[|t|..];
    hide AllSpace, Trim, TrimStart;
    Cut(s, before, rest, t);
  }

  lemma Cut(s: Text, before: Text, rest: Text, t: Text)
    requires s == before + rest && |t| <= |rest| && t == rest[..|t|]
    ensures s == before + t + rest[|t|..]
  {
  }

  lemma TrimPadded(s: Text, a: Text, t: Text, b: Text)
    requires Padded(s, a, t, b) && Trimmed(t)
    ensures Trim(s) == t
  {
    hide IsSpace;
    Assoc(a, t, b);
    TrimStartParts(a, t + b);
    if t == [] {
      TrimStartParts(b, []);
      assert t + b == b && b + [] == b;
    } else {
      hide AllSpace;
      assert TrimStart(t + b) == t + b;
      TrimEndParts(t, b);
    }
  }

  /** Trimming takes the space at both ends and nothing else. */
  lemma TrimExactly(s: Text, t: Text)
    ensures Trim(s) == t <==> Trimmed(t) && exists a, b :: Padded(s, a, t, b)
  {
    var a, b := TrimCut(s);
    hide Trim, Padded, Trimmed;
    if Trimmed(t) {
      forall a, b | Padded(s, a, t, b) ensures Trim(s) == t { TrimPadded(s, a, t, b); }
    }
  }

  // ---- case ----

  /** The 26 capitals become the small letters; nothing else changes. */
  lemma LowerExactly(s: Text, i: nat)
    requires i < |s|
    ensures 0x41 <= s[i] <= 0x5A ==> LowerAscii(s)[i] == 0x61 + (s[i] - 0x41)
    ensures !(0x41 <= s[i] <= 0x5A) ==> LowerAscii(s)[i] == s[i]
  {
  }

  // ---- decimal digits ----

  function Power(n: nat): nat { if n == 0 then 1 else 10 * Power(n - 1) }

  /** Each digit counts by its place. */
  lemma {:induction false} DigitPlaces(d: Unit, s: Text)
    requires 0x30 <= d <= 0x39 && AllDigits(s)
    ensures DecimalValue([d] + s) == (d - 0x30) * Power(|s|) + DecimalValue(s)
  {
    if s == [] {
      assert [d] + s == [d] && [d][..0] == [];
    } else {
      var t := [d] + s;
      assert t[..|t| - 1] == [d] + s[..|s| - 1];
      DigitPlaces(d, s[..|s| - 1]);
    }
  }

  // ---- groups of six bits ----

  lemma SixBits(k: int, d: int)
    requires 0 <= d < 64
    ensures (64 * k + d) / 64 == k && (64 * k + d) % 64 == d
  {
  }
}
