// internal/adapters/store/names.go: the key under which a person name is stored and looked up.
module Names {
  import opened Text

  // The apostrophe and its look-alikes.
  const APOSTROPHES := {'\'', '`', '\U{2018}', '\U{2019}', '\U{00B4}', '\U{02B9}', '\U{02BC}'}

  // The apostrophe look-alikes that the replacer maps to a plain apostrophe.
  function StraightenApostrophe(c: char): char {
    if c in {'\U{2019}', '\U{2018}', '`', '\U{00B4}', '\U{02BC}', '\U{02B9}'} then '\'' else c
  }

  function NormalizePersonName(name: string): string {
    ToLower(Join(Fields(MapChars(StraightenApostrophe, TrimSpace(name)))))
  }

  lemma StraightenKeepsSpaces()
    ensures KeepsSpaces(StraightenApostrophe) && StraightenApostrophe(' ') == ' '
  {
  }

  // A name has an empty key exactly if it is blank.
  lemma KeyIsEmptyOnlyForBlank(name: string)
    ensures NormalizePersonName(name) == "" <==> Blank(name)
    ensures Blank(name) <==> TrimSpace(name) == ""
  {
    StraightenKeepsSpaces();
    var t := TrimSpace(name);
    TrimSpaceShape(name);
    FieldsOfMap(StraightenApostrophe, t);
    FieldsAreWords(t);
    FieldsAreWords(MapChars(StraightenApostrophe, t));
    JoinIsBlankOnlyIfEmpty(Fields(MapChars(StraightenApostrophe, t)));
  }

  // The key of one word without apostrophes is the word in lower case.
  lemma KeyOfWord(w: string)
    requires IsWord(w) && forall i :: 0 <= i < |w| ==> StraightenApostrophe(w[i]) == w[i]
    ensures NormalizePersonName(w) == ToLower(w) && TrimSpace(w) == w
  {
    TrimmedStays(w);
    assert MapChars(StraightenApostrophe, w) == w;
    WordNormalizesToItself(w);
  }

  // Trimming a name first, as the store does before it inserts, does not change its key.
  lemma KeyIgnoresTrim(name: string)
    ensures NormalizePersonName(TrimSpace(name)) == NormalizePersonName(name)
  {
    TrimSpaceShape(name);
  }

  // A lower-casing of single characters, as unicode.ToLower is one: doing it twice changes nothing
  // more, it makes and removes no space, and it yields no apostrophe look-alike.
  ghost predicate LowerCases(lower: char -> char) {
    && KeepsSpaces(lower) && lower(' ') == ' '
    && (forall c :: lower(lower(c)) == lower(c))
    && (forall c :: StraightenApostrophe(c) == c ==> StraightenApostrophe(lower(c)) == lower(c))
  }

  // The key under a given lower-casing.
  function KeyWith(lower: char -> char, name: string): string {
    MapChars(lower, Join(Fields(MapChars(StraightenApostrophe, TrimSpace(name)))))
  }

  lemma LowerCharLowerCases()
    ensures LowerCases(LowerChar) && forall name :: KeyWith(LowerChar, name) == NormalizePersonName(name)
  {
    LowerKeepsSpaces();
  }

  // Normalising a key gives the key back, whatever letters the lower-casing knows: a key can be
  // looked up as if it were a name.
  lemma KeyIsItsOwnKey(lower: char -> char, name: string)
    requires LowerCases(lower)
    ensures KeyWith(lower, KeyWith(lower, name)) == KeyWith(lower, name)
  {
    StraightenKeepsSpaces();
    var ws := Fields(MapChars(StraightenApostrophe, TrimSpace(name)));
    var key := KeyWith(lower, name);
    var ks := MapWords(lower, ws);
    FieldsAreWords(MapChars(StraightenApostrophe, TrimSpace(name)));
    JoinOfMap(lower, ws);
    WordsStayWords(lower, ws);
    FieldsOfJoin(ks);
    FieldsIgnoreTrim(key);
    FieldsOfMap(StraightenApostrophe, TrimSpace(key));
    KeyHasNoCurlyApostrophe(lower, name);
    hide LowerCases, StraightenApostrophe;
    assert MapWords(StraightenApostrophe, ks) == ks by {
      forall i | 0 <= i < |ks| ensures MapWords(StraightenApostrophe, ks)[i] == ks[i] {
        WordOfJoin(ks, i);
      }
    }
    JoinOfMap(lower, ks);
    assert MapChars(lower, key) == key;
  }

  // So does the store's own key function.
  lemma StoredKeyIsItsOwnKey(name: string)
    ensures NormalizePersonName(NormalizePersonName(name)) == NormalizePersonName(name)
  {
    LowerCharLowerCases();
    KeyIsItsOwnKey(LowerChar, name);
  }

  lemma KeyHasNoCurlyApostrophe(lower: char -> char, name: string)
    requires LowerCases(lower)
    ensures forall c :: c in KeyWith(lower, name) ==> StraightenApostrophe(c) == c && lower(c) == c
    ensures forall c :: c in KeyWith(lower, name) && c in APOSTROPHES ==> c == '\''
  {
    var m := MapChars(StraightenApostrophe, TrimSpace(name));
    var j := Join(Fields(m));
    forall c | c in KeyWith(lower, name)
      ensures StraightenApostrophe(c) == c && lower(c) == c
    {
      var k :| 0 <= k < |j| && c == lower(j[k]);
      if j[k] != ' ' {
        CharsOfJoin(Fields(m), j[k]);
        var i :| 0 <= i < |Fields(m)| && j[k] in Fields(m)[i];
        CharsOfFields(m, j[k], i);
      }
    }
  }

  // ---- Which names share a key ----

  // One letter in either case, or any two apostrophes.
  predicate Alike(c: char, d: char) {
    SameLetter(c, d) || (c in APOSTROPHES && d in APOSTROPHES)
  }

  // The same words, up to the case of letters and the kind of apostrophe, with any spaces between
  // and around them.
  ghost predicate SpelledAlike(a: string, b: string) {
    var v, w := Fields(a), Fields(b);
    |v| == |w| && forall i :: 0 <= i < |v| ==> |v[i]| == |w[i]| && forall j :: 0 <= j < |v[i]| ==> Alike(v[i][j], w[i][j])
  }

  function KeyChar(c: char): char { LowerChar(StraightenApostrophe(c)) }

  lemma KeyCharMeans(c: char, d: char)
    ensures KeyChar(c) == KeyChar(d) <==> Alike(c, d)
  {
    LowerJoinsCases(StraightenApostrophe(c), StraightenApostrophe(d));
    assert {c, d} == {STRAY, '\U{FFFD}'} <==> (c == STRAY && d == '\U{FFFD}') || (d == STRAY && c == '\U{FFFD}');
  }

  lemma KeyOfWords(name: string)
    ensures NormalizePersonName(name) == MapChars(KeyChar, Join(Fields(name)))
  {
    StraightenKeepsSpaces();
    FieldsIgnoreTrim(name);
    FieldsOfMap(StraightenApostrophe, TrimSpace(name));
    JoinOfMap(StraightenApostrophe, Fields(name));
    hide LowerChar, StraightenApostrophe, Fields, Join, TrimSpace;
  }

  // Two names share a key exactly if they are spelled alike.
  lemma SameKeyExactly(a: string, b: string)
    ensures NormalizePersonName(a) == NormalizePersonName(b) <==> SpelledAlike(a, b)
  {
    KeyOfWords(a);
    KeyOfWords(b);
    FieldsAreWords(a);
    FieldsAreWords(b);
    LowerKeepsSpaces();
    StraightenKeepsSpaces();
    JoinedAlike(KeyChar, Fields(a), Fields(b));
    forall c, d ensures KeyChar(c) == KeyChar(d) <==> Alike(c, d) {
      KeyCharMeans(c, d);
    }
    hide NormalizePersonName, KeyChar, Alike, Fields, Join;
  }

  // The database stores a key, and takes it in a query, exactly if the name has no NUL character.
  lemma KeyIsStorable(name: string)
    ensures Storable(NormalizePersonName(name)) <==> '\0' !in name
  {
    KeyOfWords(name);
    var ws, j := Fields(name), Join(Fields(name));
    assert forall c :: KeyChar(c) != STRAY && (KeyChar(c) == '\0' <==> c == '\0');
    hide NormalizePersonName, KeyChar, Fields, Join;
    assert Storable(MapChars(KeyChar, j)) <==> '\0' !in j;
    if '\0' in name {
      CharsInFields(name, '\0');
      var i :| 0 <= i < |ws| && '\0' in ws[i];
      WordOfJoin(ws, i);
    }
    if '\0' in j {
      CharsOfJoin(ws, '\0');
      var i :| 0 <= i < |ws| && '\0' in ws[i];
      CharsOfFields(name, '\0', i);
    }
  }
}
