/**
 The identity normaliser: a scraped display name becomes a canonical key
 fragment over the alphabet A-Z, 0-9 and '_', and an inmate id is that
 fragment followed by '_' and the county tag.

 The normaliser is a pipeline of four string passes, applied in this order:
 upper-casing, deleting commas, turning spaces into underscores, and
 deleting every character outside the key alphabet. Upper-casing is the
 ASCII mapping a-z to A-Z.
 */
module Identity {

  /** ASCII upper-casing of one character; every other character is unchanged. */
  function UpperChar(c: char): char
  {
    if 'a' <= c <= 'z' then (c as int - 32) as char else c
  }

  /** The key alphabet: A-Z, 0-9 and '_'. */
  predicate IsKeyChar(c: char)
  {
    ('A' <= c <= 'Z') || ('0' <= c <= '9') || c == '_'
  }

  /** A string every character of which is in the key alphabet. */
  predicate IsKey(s: string)
  {
    forall i :: 0 <= i < |s| ==> IsKeyChar(s[i])
  }

  // ---------------------------------------------------------------------
  // The four passes
  // ---------------------------------------------------------------------

  /** Upper-cases every character. */
  function Upper(s: string): string
  {
    if |s| == 0 then [] else [UpperChar(s[0])] + Upper(s[1..])
  }

  /** Deletes every comma. */
  function DeleteCommas(s: string): string
  {
    if |s| == 0 then []
    else if s[0] == ',' then DeleteCommas(s[1..])
    else [s[0]] + DeleteCommas(s[1..])
  }

  /** Replaces every space by an underscore. */
  function SpacesToUnderscores(s: string): string
  {
    if |s| == 0 then []
    else [if s[0] == ' ' then '_' else s[0]] + SpacesToUnderscores(s[1..])
  }

  /** Deletes every character outside the key alphabet. */
  function KeepKeyChars(s: string): (r: string)
    ensures |r| <= |s|
    ensures IsKey(r)
  {
    if |s| == 0 then []
    else if IsKeyChar(s[0]) then [s[0]] + KeepKeyChars(s[1..])
    else KeepKeyChars(s[1..])
  }

  /** The name normaliser: the four passes in order. */
  function NormalizeName(name: string): (key: string)
    ensures IsKey(key)
  {
    KeepKeyChars(SpacesToUnderscores(DeleteCommas(Upper(name))))
  }

  /** An inmate id: the normalised name, an underscore, then the county tag.
      Everything before the "_" + county suffix is in the key alphabet. */
  function InmateId(name: string, county: string): (id: string)
    ensures |id| == |NormalizeName(name)| + 1 + |county|
    ensures id[|id| - |county| - 1..] == "_" + county
    ensures IsKey(id[..|id| - |county| - 1])
  {
    NormalizeName(name) + "_" + county
  }

  // ---------------------------------------------------------------------
  // A character-by-character reference definition of the normaliser
  // ---------------------------------------------------------------------

  /** What the normaliser makes of one character: nothing for a comma, '_'
      for a space, otherwise the upper-cased character if it is in the key
      alphabet and nothing if it is not. */
  function NormalizeChar(c: char): (r: string)
    ensures |r| <= 1
  {
    if c == ',' then []
    else
      var d := if c == ' ' then '_' else UpperChar(c);
      if IsKeyChar(d) then [d] else []
  }

  /** The normaliser as the concatenation of NormalizeChar over the name. */
  function NormalizeRef(name: string): string
  {
    if |name| == 0 then [] else NormalizeChar(name[0]) + NormalizeRef(name[1..])
  }

  // ---------------------------------------------------------------------
  // Each pass distributes over concatenation
  // ---------------------------------------------------------------------

  lemma {:induction false} UpperConcat(a: string, b: string)
    ensures Upper(a + b) == Upper(a) + Upper(b)
  {
    if |a| > 0 {
      assert (a + b)[1..] == a[1..] + b;
      UpperConcat(a[1..], b);
    } else {
      assert a + b == b;
    }
  }

  lemma {:induction false} DeleteCommasConcat(a: string, b: string)
    ensures DeleteCommas(a + b) == DeleteCommas(a) + DeleteCommas(b)
  {
    if |a| > 0 {
      assert (a + b)[1..] == a[1..] + b;
      DeleteCommasConcat(a[1..], b);
    } else {
      assert a + b == b;
    }
  }

  lemma {:induction false} SpacesToUnderscoresConcat(a: string, b: string)
    ensures SpacesToUnderscores(a + b) == SpacesToUnderscores(a) + SpacesToUnderscores(b)
  {
    if |a| > 0 {
      assert (a + b)[1..] == a[1..] + b;
      SpacesToUnderscoresConcat(a[1..], b);
    } else {
      assert a + b == b;
    }
  }

  lemma {:induction false} KeepKeyCharsConcat(a: string, b: string)
    ensures KeepKeyChars(a + b) == KeepKeyChars(a) + KeepKeyChars(b)
  {
    if |a| > 0 {
      assert (a + b)[1..] == a[1..] + b;
      KeepKeyCharsConcat(a[1..], b);
    } else {
      assert a + b == b;
    }
  }

  /** The normaliser works character by character: normalising a
      concatenation is concatenating the normalised parts. */
  lemma NormalizeConcat(a: string, b: string)
    ensures NormalizeName(a + b) == NormalizeName(a) + NormalizeName(b)
  {
    UpperConcat(a, b);
    DeleteCommasConcat(Upper(a), Upper(b));
    SpacesToUnderscoresConcat(DeleteCommas(Upper(a)), DeleteCommas(Upper(b)));
    KeepKeyCharsConcat(SpacesToUnderscores(DeleteCommas(Upper(a))),
                       SpacesToUnderscores(DeleteCommas(Upper(b))));
  }

  /** On a single character the pipeline agrees with NormalizeChar. */
  lemma NormalizeSingle(c: char)
    ensures NormalizeName([c]) == NormalizeChar(c)
  {
    assert [c][1..] == [];
    var u := UpperChar(c);
    assert Upper([c]) == [u];
    assert [u][1..] == [];
    if u == ',' {
      assert DeleteCommas([u]) == [];
    } else {
      assert DeleteCommas([u]) == [u];
      var d := if u == ' ' then '_' else u;
      assert SpacesToUnderscores([u]) == [d];
      assert [d][1..] == [];
    }
  }

  /** The four-pass pipeline equals the character-by-character reference. */
  lemma {:induction false} NormalizeIsCharwise(name: string)
    ensures NormalizeName(name) == NormalizeRef(name)
  {
    if |name| > 0 {
      assert name == [name[0]] + name[1..];
      NormalizeConcat([name[0]], name[1..]);
      NormalizeSingle(name[0]);
      NormalizeIsCharwise(name[1..]);
    }
  }

  // ---------------------------------------------------------------------
  // Alphabet, fixed points and idempotence
  // ---------------------------------------------------------------------

  /** No comma and no space survives normalisation, and no lower-case ASCII letter. */
  lemma NormalizedHasNoCommaOrSpace(name: string)
    ensures forall i :: 0 <= i < |NormalizeName(name)| ==>
              NormalizeName(name)[i] != ',' && NormalizeName(name)[i] != ' '
              && !('a' <= NormalizeName(name)[i] <= 'z')
  {
    var key := NormalizeName(name);
    assert IsKey(key);
  }

  /** A string already over the key alphabet is left unchanged by the reference definition. */
  lemma {:induction false} NormalizeRefFixesKeys(s: string)
    requires IsKey(s)
    ensures NormalizeRef(s) == s
  {
    if |s| > 0 {
      assert IsKeyChar(s[0]);
      assert NormalizeChar(s[0]) == [s[0]];
      NormalizeRefFixesKeys(s[1..]);
      assert s == [s[0]] + s[1..];
    }
  }

  /** The fixed points of the normaliser are exactly the strings over the key alphabet. */
  lemma NormalizeFixedPoints(s: string)
    ensures NormalizeName(s) == s <==> IsKey(s)
  {
    if IsKey(s) {
      NormalizeIsCharwise(s);
      NormalizeRefFixesKeys(s);
    }
  }

  /** Normalising an already-normalised name returns it unchanged. */
  lemma NormalizeIdempotent(name: string)
    ensures NormalizeName(NormalizeName(name)) == NormalizeName(name)
  {
    NormalizeFixedPoints(NormalizeName(name));
  }

  // ---------------------------------------------------------------------
  // Inmate ids
  // ---------------------------------------------------------------------

  /** An id is the normalised name followed by '_' and the county: it ends
      with "_" + county and the part before that suffix is the key fragment. */
  lemma InmateIdParts(name: string, county: string)
    ensures |InmateId(name, county)| == |NormalizeName(name)| + 1 + |county|
    ensures InmateId(name, county)[..|NormalizeName(name)|] == NormalizeName(name)
    ensures InmateId(name, county)[|NormalizeName(name)|..] == "_" + county
  {
    var id := InmateId(name, county);
    var key := NormalizeName(name);
    assert id == key + ("_" + county);
  }

  /** Two ids are equal exactly when both the normalised names and the
      counties are equal, provided neither county tag contains '_'. */
  lemma InmateIdInjective(n1: string, c1: string, n2: string, c2: string)
    requires '_' !in c1 && '_' !in c2
    ensures InmateId(n1, c1) == InmateId(n2, c2)
        <==> NormalizeName(n1) == NormalizeName(n2) && c1 == c2
  {
    var id1, id2 := InmateId(n1, c1), InmateId(n2, c2);
    var k1, k2 := NormalizeName(n1), NormalizeName(n2);
    InmateIdParts(n1, c1);
    InmateIdParts(n2, c2);
    if id1 == id2 {
      // the separator is the last '_' of an id, so both sit at one position
      assert id1[|k1|] == '_' && id2[|k2|] == '_';
      assert forall j :: |k1| < j < |id1| ==> id1[j] == c1[j - |k1| - 1] != '_';
      assert forall j :: |k2| < j < |id2| ==> id2[j] == c2[j - |k2| - 1] != '_';
      assert |k1| == |k2|;
      assert k1 == id1[..|k1|];
      assert c1 == id1[|k1| + 1..];
    }
  }

  /** Ids built for Crawford County and for Sebastian County never coincide,
      whatever the names. */
  lemma CountiesNeverCollide(n1: string, n2: string)
    ensures InmateId(n1, "crawford") != InmateId(n2, "sebastian")
  {
    InmateIdInjective(n1, "crawford", n2, "sebastian");
  }

  /** Without the restriction on '_' in county tags, distinct (name, county)
      pairs can share an id: "A" in county "B_C" and "A B" in county "C". */
  lemma UnderscoreCountyCollides()
    ensures InmateId("A", "B_C") == InmateId("A B", "C")
  {
    assert NormalizeRef("A") == "A";
    assert NormalizeRef("A B") == "A_B";
    NormalizeIsCharwise("A");
    NormalizeIsCharwise("A B");
  }

  // ---------------------------------------------------------------------
  // Concrete cases
  // ---------------------------------------------------------------------

  /** A name written as four consecutive pieces normalises piece by piece. */
  lemma NormalizeFourPieces(a: string, b: string, c: string, d: string)
    ensures NormalizeName(a + b + c + d)
         == NormalizeRef(a) + NormalizeRef(b) + NormalizeRef(c) + NormalizeRef(d)
  {
    NormalizeConcat(a + b + c, d);
    NormalizeConcat(a + b, c);
    NormalizeConcat(a, b);
    NormalizeIsCharwise(a);
    NormalizeIsCharwise(b);
    NormalizeIsCharwise(c);
    NormalizeIsCharwise(d);
  }

  // The two example names below are evaluated in pieces of at most four
  // characters; each piece's reference normalisation is a fact of its own.

  lemma PunctuatedNameSplit()
    ensures "John Smith, Jr." == "John" + " Smi" + "th, " + "Jr."
  {
  }

  lemma UpperCaseNameSplit()
    ensures "JOHN SMITH JR" == "JOHN" + " SMI" + "TH " + "JR"
  {
  }

  lemma PunctuatedNameFirstPieces()
    ensures NormalizeRef("John") == "JOHN" && NormalizeRef(" Smi") == "_SMI"
  {
    assert NormalizeRef("n") == "N";
    assert NormalizeRef("hn") == "HN";
    assert NormalizeRef("ohn") == "OHN";
    assert NormalizeRef("i") == "I";
    assert NormalizeRef("mi") == "MI";
    assert NormalizeRef("Smi") == "SMI";
  }

  lemma PunctuatedNameLastPieces()
    ensures NormalizeRef("th, ") == "TH_" && NormalizeRef("Jr.") == "JR"
  {
    assert NormalizeRef(" ") == "_";
    assert NormalizeRef(", ") == "_";
    assert NormalizeRef("h, ") == "H_";
    assert NormalizeRef(".") == "";
    assert NormalizeRef("r.") == "R";
  }

  lemma UpperCaseNameFirstPieces()
    ensures NormalizeRef("JOHN") == "JOHN" && NormalizeRef(" SMI") == "_SMI"
  {
    assert NormalizeRef("N") == "N";
    assert NormalizeRef("HN") == "HN";
    assert NormalizeRef("OHN") == "OHN";
    assert NormalizeRef("I") == "I";
    assert NormalizeRef("MI") == "MI";
    assert NormalizeRef("SMI") == "SMI";
  }

  lemma UpperCaseNameLastPieces()
    ensures NormalizeRef("TH ") == "TH_" && NormalizeRef("JR") == "JR"
  {
    assert NormalizeRef(" ") == "_";
    assert NormalizeRef("H ") == "H_";
    assert NormalizeRef("R") == "R";
  }

  lemma PunctuatedNameByPieces()
    ensures NormalizeName("John" + " Smi" + "th, " + "Jr.") == "JOHN_SMITH_JR"
  {
    PunctuatedNameFirstPieces();
    PunctuatedNameLastPieces();
    NormalizeFourPieces("John", " Smi", "th, ", "Jr.");
  }

  lemma UpperCaseNameByPieces()
    ensures NormalizeName("JOHN" + " SMI" + "TH " + "JR") == "JOHN_SMITH_JR"
  {
    UpperCaseNameFirstPieces();
    UpperCaseNameLastPieces();
    NormalizeFourPieces("JOHN", " SMI", "TH ", "JR");
  }

  /** Case, the comma and the full stop are dropped from a punctuated name,
      and the spaces become underscores. */
  lemma NormalizePunctuatedName()
    ensures NormalizeName("John Smith, Jr.") == "JOHN_SMITH_JR"
  {
    PunctuatedNameByPieces();
    PunctuatedNameSplit();
  }

  /** The plain upper-case spelling of the same name gets the same key. */
  lemma NormalizeUpperCaseName()
    ensures NormalizeName("JOHN SMITH JR") == "JOHN_SMITH_JR"
  {
    UpperCaseNameByPieces();
    UpperCaseNameSplit();
  }

  /** Two spellings that differ only in case, commas and punctuation collide
      on one key, and so on one id within a county. */
  lemma NormalizeCollapsesVariants(county: string)
    ensures InmateId("John Smith, Jr.", county) == InmateId("JOHN SMITH JR", county)
  {
    NormalizePunctuatedName();
    NormalizeUpperCaseName();
  }

  /** An empty name gives an empty fragment, so its id is the county suffix alone. */
  lemma EmptyNameId()
    ensures NormalizeName("") == ""
    ensures InmateId("", "crawford") == "_crawford"
  {
  }
}
