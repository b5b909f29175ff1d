/** The glyph table `SSD_CHAR_MAP`: which segments are lit for each character. */
module Glyphs {
  import opened Segments
  import opened Results

  /** The table keys in the order they are written (a Python dict keeps
      insertion order, and the lowercase loop walks the keys in that order). */
  const BaseKeys: seq<char> :=
    ['0', '1', '2', '3', '4', '5', '6', '7', '8', '9', ' ',
     'A', 'B', 'C', 'D', 'E', 'F', 'G', 'H', 'I', 'J', 'K', 'L',
     'N', 'O', 'P', 'Q', 'R', 'S', 'T', 'U', 'V', 'Y', 'Z']

  /** How a table entry is written: the segments to switch on
      (`on_segments(...)`) or the segments to leave off (`off_segments(...)`). */
  datatype Recipe = On(segs: seq<bv8>) | Off(segs: seq<bv8>)

  /** The mask a recipe denotes. */
  function Mask(r: Recipe): bv8 {
    match r
    case On(segs) => OnSegments(segs)
    case Off(segs) => OffSegments(segs)
  }

  /** The table as written, before lowercase keys are added. There is no M,
      W or X: two N's or two V's stand in for them. */
  const BaseRecipes: map<char, Recipe> := map[
    '0' := On([A, B, C, D, E, F]),
    '1' := On([B, C]),
    '2' := On([A, B, D, E, G]),
    '3' := On([A, B, C, D, G]),
    '4' := On([B, C, G, F]),
    '5' := On([A, C, D, F, G]),
    '6' := On([A, C, D, E, F, G]),
    '7' := On([A, B, C]),
    '8' := On([A, B, C, D, E, F, G]),
    '9' := On([A, B, C, D, F, G]),
    ' ' := Off([A, B, C, D, E, F, G]),
    'A' := Off([D]),
    'B' := Off([A, B]),
    'C' := On([A, D, E, F]),
    'D' := Off([A, F]),
    'E' := Off([B, C]),
    'F' := Off([B, C, D]),
    'G' := Off([B, G]),
    'H' := Off([A, B, D]),
    'I' := On([B, C]),
    'J' := Off([A, F, G]),
    'K' := Off([A, D]),
    'L' := On([D, E, F]),
    'N' := Off([D, G]),
    'O' := Off([A, B, F]),
    'P' := Off([C, D]),
    'Q' := Off([D, E]),
    'R' := On([E, G]),
    'S' := Off([B, E]),
    'T' := Off([A, B, C]),
    'U' := Off([A, G]),
    'V' := On([C, D, E]),
    'Y' := Off([A, E]),
    'Z' := Off([C, F])
  ]

  /** The masks of the written table. */
  const BaseMap: map<char, bv8> := map k | k in BaseRecipes :: Mask(BaseRecipes[k])

  predicate IsUpper(c: char) {
    'A' <= c <= 'Z'
  }

  predicate IsLower(c: char) {
    'a' <= c <= 'z'
  }

  /** `str.lower` on one character, for the ASCII characters the table uses. */
  function Lower(c: char): (r: char)
    ensures IsUpper(c) ==> IsLower(r) && r as int - c as int == 32
    ensures !IsUpper(c) ==> r == c
  {
    if IsUpper(c) then (c as int + 32) as char else c
  }

  /** The uppercase letter a lowercase letter comes from. */
  function Upper(c: char): (r: char)
    ensures IsLower(c) ==> IsUpper(r) && Lower(r) == c
    ensures !IsLower(c) ==> r == c
  {
    if IsLower(c) then (c as int - 32) as char else c
  }

  /** The table a lowercase pass should produce: every key of `m`, plus the
      lowercase form of every key, where a lowercase letter whose uppercase
      letter is a key carries that uppercase letter's mask. */
  function WithLowercase(m: map<char, bv8>): (r: map<char, bv8>)
    ensures r.Keys == m.Keys + (set k | k in m :: Lower(k))
    ensures forall k :: k in m && IsUpper(k) ==> r[Lower(k)] == m[k]
    ensures forall c :: c in m && !IsLower(c) ==> r[c] == m[c]
    ensures forall c :: c in r ==> r[c] in m.Values
  {
    map c | c in m.Keys + (set k | k in m :: Lower(k)) ::
      if IsLower(c) && Upper(c) in m then m[Upper(c)] else m[c]
  }

  /** The lowercase forms the loop has added after walking `keys`. */
  function LowerImages(keys: seq<char>): set<char> {
    set k | k in keys && Lower(k) != k :: Lower(k)
  }

  /** The lowercase forms added for `keys + [k]`. */
  lemma LowerImagesSnoc(keys: seq<char>, k: char)
    ensures LowerImages(keys + [k]) == LowerImages(keys) + (if Lower(k) != k then {Lower(k)} else {})
  {
    assert forall j :: j in keys + [k] <==> j in keys || j == k;
  }

  /** The loop body for one key: a key that changes under `lower` gets a
      lowercase twin carrying the key's current mask. */
  function LowerOne(t: map<char, bv8>, key: char): map<char, bv8>
    requires Lower(key) != key ==> key in t
  {
    if Lower(key) != key then t[Lower(key) := t[key]] else t
  }

  /** After walking `walked`, the keys are the original keys plus the
      lowercase forms added so far. */
  predicate LoweredKeys(m: map<char, bv8>, walked: seq<char>, t: map<char, bv8>) {
    t.Keys == m.Keys + LowerImages(walked)
  }

  /** After walking `walked`, each added lowercase form carries the ORIGINAL
      mask of the key it came from. */
  predicate LoweredMasks(m: map<char, bv8>, walked: seq<char>, t: map<char, bv8>) {
    forall k :: k in walked && Lower(k) != k ==> k in m && Lower(k) in t && t[Lower(k)] == m[k]
  }

  /** After walking `walked`, every original entry not overwritten by an added
      lowercase form is untouched. */
  predicate KeptMasks(m: map<char, bv8>, walked: seq<char>, t: map<char, bv8>) {
    forall c :: c in m && c !in LowerImages(walked) ==> c in t && t[c] == m[c]
  }

  /** The key an uppercase letter is read from is never an added lowercase form. */
  lemma ReadKeyKept(m: map<char, bv8>, walked: seq<char>, t: map<char, bv8>, key: char)
    requires key in m && Lower(key) != key
    requires KeptMasks(m, walked, t)
    ensures key in t && t[key] == m[key]
  {
    assert key !in LowerImages(walked);
  }

  /** One turn of the loop body keeps LoweredKeys. */
  lemma StepKeys(m: map<char, bv8>, walked: seq<char>, t: map<char, bv8>, key: char)
    requires Lower(key) != key ==> key in t
    requires LoweredKeys(m, walked, t)
    ensures LoweredKeys(m, walked + [key], LowerOne(t, key))
  {
    LowerImagesSnoc(walked, key);
  }

  /** One turn of the loop body keeps LoweredMasks. */
  lemma StepMasks(m: map<char, bv8>, walked: seq<char>, t: map<char, bv8>, key: char)
    requires key in m
    requires LoweredMasks(m, walked, t) && KeptMasks(m, walked, t)
    ensures Lower(key) != key ==> key in t
    ensures LoweredMasks(m, walked + [key], LowerOne(t, key))
  {
    if Lower(key) != key {
      ReadKeyKept(m, walked, t, key);
    }
    assert forall k :: k in walked + [key] <==> k in walked || k == key;
  }

  /** One turn of the loop body keeps KeptMasks. */
  lemma StepKept(m: map<char, bv8>, walked: seq<char>, t: map<char, bv8>, key: char)
    requires Lower(key) != key ==> key in t
    requires KeptMasks(m, walked, t)
    ensures KeptMasks(m, walked + [key], LowerOne(t, key))
  {
    LowerImagesSnoc(walked, key);
  }

  /** The module-level loop that gives every key with a lowercase form a
      lowercase twin carrying its mask, walking a snapshot `keys` of the
      table's keys in any order. It produces the lowercase
      table whatever the order, because an uppercase key is never overwritten
      before it is read. */
  method AddLowercase(m: map<char, bv8>, keys: seq<char>) returns (t: map<char, bv8>)
    requires forall k :: k in keys <==> k in m
    ensures t == WithLowercase(m)
  {
    t := m;
    var i := 0;
    while i < |keys|
      invariant 0 <= i <= |keys|
      invariant LoweredKeys(m, keys[..i], t)
      invariant LoweredMasks(m, keys[..i], t)
      invariant KeptMasks(m, keys[..i], t)
    {
      var key := keys[i];
      assert keys[..i + 1] == keys[..i] + [key];
      StepMasks(m, keys[..i], t, key);
      StepKeys(m, keys[..i], t, key);
      StepKept(m, keys[..i], t, key);
      t := LowerOne(t, key);
      i := i + 1;
    }
    assert keys[..i] == keys;
    LowerTableMatches(m, keys, t);
  }

  /** When `keys` lists exactly the keys of `m`, the keys plus their added
      lowercase forms are the keys plus the lowercase form of every key. */
  lemma LowerImagesOfKeys(m: map<char, bv8>, keys: seq<char>)
    requires forall k :: k in keys <==> k in m
    ensures m.Keys + LowerImages(keys) == m.Keys + (set k | k in m :: Lower(k))
  {
  }

  /** An added lowercase form carries the mask the lowercase table gives it. */
  lemma LoweredEntryMatches(m: map<char, bv8>, keys: seq<char>, t: map<char, bv8>, c: char)
    requires LoweredMasks(m, keys, t)
    requires c in LowerImages(keys)
    ensures c in t && c in WithLowercase(m) && t[c] == WithLowercase(m)[c]
  {
    var k :| k in keys && Lower(k) != k && Lower(k) == c;
    assert Upper(c) == k;
  }

  /** An original entry the loop did not overwrite carries the mask the
      lowercase table gives it. */
  lemma KeptEntryMatches(m: map<char, bv8>, keys: seq<char>, t: map<char, bv8>, c: char)
    requires forall k :: k in keys <==> k in m
    requires KeptMasks(m, keys, t)
    requires c in m && c !in LowerImages(keys)
    ensures c in t && c in WithLowercase(m) && t[c] == WithLowercase(m)[c]
  {
    assert IsLower(c) && Upper(c) in m ==> Upper(c) in keys && Lower(Upper(c)) == c;
  }

  /** Two maps with the same keys and the same value at every key are equal. */
  lemma MapsAgree(t: map<char, bv8>, w: map<char, bv8>)
    requires t.Keys == w.Keys
    requires forall c :: c in t ==> t[c] == w[c]
    ensures t == w
  {
  }

  /** A table the whole key list has been walked for is the lowercase table. */
  lemma LowerTableMatches(m: map<char, bv8>, keys: seq<char>, t: map<char, bv8>)
    requires forall k :: k in keys <==> k in m
    requires LoweredKeys(m, keys, t) && LoweredMasks(m, keys, t) && KeptMasks(m, keys, t)
    ensures t == WithLowercase(m)
  {
    var w := WithLowercase(m);
    assert t.Keys == w.Keys by {
      LowerImagesOfKeys(m, keys);
    }
    forall c | c in t
      ensures t[c] == w[c]
    {
      if c in LowerImages(keys) {
        LoweredEntryMatches(m, keys, t, c);
      } else {
        KeptEntryMatches(m, keys, t, c);
      }
    }
    MapsAgree(t, w);
  }

  /** A character neither written in `m` nor mirrored from a key of `m` is
      missing from the lowercase table. */
  lemma LowercaseMissing(m: map<char, bv8>, c: char)
    requires c !in m && Upper(c) !in m
    ensures c !in WithLowercase(m)
  {
    assert forall k :: Lower(k) == c ==> k == c || k == Upper(c);
  }

  /** `SSD_CHAR_MAP` once the lowercase loop has run over the written table. */
  const CharMap: map<char, bv8> := WithLowercase(BaseMap)

  /** The keys written in the table, in closed form: the digits, the space
      and every capital letter except M, W and X. */
  predicate WrittenKey(u: char) {
    ('0' <= u <= '9') || u == ' ' || (IsUpper(u) && u != 'M' && u != 'W' && u != 'X')
  }

  /** The characters `SSD_CHAR_MAP` has a glyph for once the lowercase loop
      has run: a written key, or the lowercase form of one. */
  predicate Known(c: char) {
    WrittenKey(Upper(c))
  }

  /** Looking a character up, failing the way the widgets' `assert char in
      SSD_CHAR_MAP` does. A lowercase letter reads its uppercase letter's
      entry, which is what the lowercase loop copied for it. */
  function Lookup(c: char): (r: Result<bv8>)
    ensures r.Ok? <==> Known(c)
    ensures r.Err? ==> r.error == UnknownGlyph(c)
  {
    if Known(c) then
      WrittenKeysListed(Upper(c));
      Ok(Mask(BaseRecipes[Upper(c)]))
    else Err(UnknownGlyph(c))
  }

  /** The closed form names exactly the written keys. */
  lemma WrittenKeysListed(u: char)
    ensures WrittenKey(u) <==> u in BaseRecipes
  {
    if '0' <= u <= '9' {
      DigitsWritten(u);
    } else if IsUpper(u) {
      LettersWritten(u);
    }
  }

  /** Every digit is written in the table. */
  lemma DigitsWritten(u: char)
    requires '0' <= u <= '9'
    ensures u in BaseRecipes
  {
    assert u in "0123456789" by {
      assert u as int - '0' as int < 10;
    }
  }

  /** A capital letter is written in the table unless it is M, W or X. */
  lemma LettersWritten(u: char)
    requires IsUpper(u)
    ensures u in BaseRecipes <==> u != 'M' && u != 'W' && u != 'X'
  {
    if u < 'M' {
      assert u in "ABCDEFGHIJKL" by {
        assert u as int - 'A' as int < 12;
      }
    } else if u == 'M' {
    } else if u < 'W' {
      assert u in "NOPQRSTUV" by {
        assert u as int - 'N' as int < 9;
      }
    } else {
      assert u in "WXYZ" by {
        assert u as int - 'W' as int < 4;
      }
    }
  }

  /** Looking up a character is indexing the table the lowercase loop builds:
      it succeeds exactly for the keys of that table, with that table's mask. */
  lemma LookupIsTable(c: char)
    ensures Lookup(c) == if c in CharMap then Ok(CharMap[c]) else Err(UnknownGlyph(c))
  {
    WrittenKeysListed(Upper(c));
    BaseKeysNotLower();
    if IsLower(c) {
      assert c !in BaseMap;
      if Upper(c) in BaseMap {
        assert c in CharMap by {
          assert Lower(Upper(c)) == c;
        }
      } else {
        LowercaseMissing(BaseMap, c);
      }
    } else {
      assert c == Upper(c);
      if c !in BaseMap {
        LowercaseMissing(BaseMap, c);
      }
    }
  }

  /** Every key in the list the loop walks is a key of the written table. */
  lemma BaseKeysInTable()
    ensures forall k :: k in BaseKeys ==> k in BaseRecipes
  {
  }

  /** Every key of the written table is in the list the loop walks. */
  lemma TableKeysListed()
    ensures forall k :: k in BaseRecipes.Keys ==> k in BaseKeys
  {
  }

  /** The key list the loop walks is the written table's key set, so running
      the loop over it yields CharMap. */
  lemma BaseKeysMatchTable()
    ensures forall k :: k in BaseKeys <==> k in BaseMap
  {
    BaseKeysInTable();
    TableKeysListed();
  }

  /** The module-level loop of `sevensegment.py` run on the written table:
      it builds exactly CharMap. */
  method BuildCharMap() returns (t: map<char, bv8>)
    ensures t == CharMap
  {
    BaseKeysMatchTable();
    t := AddLowercase(BaseMap, BaseKeys);
  }

  /** None of the written keys is a lowercase letter. */
  lemma BaseKeysNotLower()
    ensures forall k :: k in BaseRecipes ==> !IsLower(k)
  {
  }

  /** When `m` has no lowercase keys, the lowercase table keeps every entry of `m`. */
  lemma LowercaseKeepsOriginals(m: map<char, bv8>)
    requires forall k :: k in m ==> !IsLower(k)
    ensures forall k :: k in m ==> k in WithLowercase(m) && WithLowercase(m)[k] == m[k]
  {
  }

  /** In the lowercase table every uppercase key has a lowercase twin with the same mask. */
  lemma LowercaseMirrors(m: map<char, bv8>)
    ensures forall k :: k in WithLowercase(m) && IsUpper(k) ==>
      Lower(k) in WithLowercase(m) && WithLowercase(m)[Lower(k)] == WithLowercase(m)[k]
  {
    var r := WithLowercase(m);
    forall k | k in r && IsUpper(k)
      ensures Lower(k) in r && r[Lower(k)] == r[k]
    {
      assert k in m;
    }
  }

  /** No original entry's mask changes. */
  lemma OriginalsUnchanged()
    ensures forall k :: k in BaseMap ==> k in CharMap && CharMap[k] == BaseMap[k]
  {
    BaseKeysNotLower();
    LowercaseKeepsOriginals(BaseMap);
  }

  /** Every uppercase key has a lowercase twin with the same mask. */
  lemma CaseMirror()
    ensures forall k :: k in CharMap && IsUpper(k) ==> Lower(k) in CharMap && CharMap[Lower(k)] == CharMap[k]
  {
    LowercaseMirrors(BaseMap);
  }

  /** A recipe's mask lights exactly the segments it names (`On`) or exactly
      the ones it does not name (`Off`), and nothing outside ALL. */
  lemma MaskLights(r: Recipe, s: bv8)
    requires AllSegments(r.segs) && IsSegment(s)
    ensures Within(s, Mask(r)) <==> (if r.On? then s in r.segs else s !in r.segs)
    ensures Within(Mask(r), ALL)
  {
    if r.On? {
      OnSegmentsHas(s, r.segs);
      OnSegmentsWithinAll(r.segs);
    } else {
      OffSegmentsHas(s, r.segs);
    }
  }

  /** Every entry of the written table names segment codes only. */
  lemma RecipesUseSegments()
    ensures forall k :: k in BaseRecipes ==> AllSegments(BaseRecipes[k].segs)
  {
  }

  /** No mask of the written table has a bit outside ALL. */
  lemma BaseMasksWithinAll()
    ensures forall v :: v in BaseMap.Values ==> Within(v, ALL)
  {
    RecipesUseSegments();
    forall v | v in BaseMap.Values
      ensures Within(v, ALL)
    {
      var k :| k in BaseMap && BaseMap[k] == v;
      MaskLights(BaseRecipes[k], A);
    }
  }

  /** Every mask of the finished table, lowercase twins included, has no bit
      outside ALL. */
  lemma MasksWithinAll()
    ensures forall k :: k in CharMap ==> Within(CharMap[k], ALL)
  {
    BaseMasksWithinAll();
  }

  /** The mask of `On(args)` when `args` are segment codes is the value whose
      bits are exactly those segments. */
  lemma OnMaskIs(args: seq<bv8>, v: bv8)
    requires AllSegments(args) && Within(v, ALL)
    requires forall i :: 0 <= i < 7 ==> (Within(Order[i], v) <==> Order[i] in args)
    ensures Mask(On(args)) == v
  {
    OnSegmentsWithinAll(args);
    forall i | 0 <= i < 7
      ensures Within(Order[i], OnSegments(args)) <==> Within(Order[i], v)
    {
      OnSegmentsHas(Order[i], args);
    }
    SameSegments(OnSegments(args), v);
  }

  /** Looking up a written key gives the mask of its recipe. */
  lemma LookupWritten(k: char)
    requires k in BaseRecipes
    ensures Lookup(k) == Ok(Mask(BaseRecipes[k]))
  {
    WrittenKeysListed(k);
    BaseKeysNotLower();
  }

  /** The recipe written for 0. */
  lemma ZeroRecipe()
    ensures '0' in BaseRecipes && BaseRecipes['0'] == On([A, B, C, D, E, F])
  {
  }

  /** Switching on A..F gives 0x3F. */
  lemma ZeroMask()
    ensures Mask(On([A, B, C, D, E, F])) == 0x3F
  {
    AllIsLowSevenBits();
    OnMaskIs([A, B, C, D, E, F], 0x3F);
  }

  /** 0 lights segments A..F: 0x3F. */
  lemma ZeroEntry()
    ensures Lookup('0') == Ok(0x3F)
  {
    ZeroRecipe();
    LookupWritten('0');
    ZeroMask();
  }

  /** 8 lights every segment: 0x7F. */
  lemma EightEntry()
    ensures Lookup('8') == Ok(ALL) && ALL == 0x7F
  {
    assert BaseRecipes['8'] == On(Order);
    LookupWritten('8');
    AllIsLowSevenBits();
  }

  /** Space lights nothing. */
  lemma SpaceEntry()
    ensures Lookup(' ') == Ok(0)
  {
    assert BaseRecipes[' '] == Off(Order);
    LookupWritten(' ');
  }

  /** I is drawn like 1, in either case. */
  lemma LetterIEntry()
    ensures Lookup('I') == Lookup('1') && Lookup('i') == Lookup('1')
  {
    assert BaseRecipes['I'] == BaseRecipes['1'];
    LookupWritten('I');
    LookupWritten('1');
    CaseMirror();
    assert Lower('I') == 'i';
  }

  /** M, W and X (in either case) and punctuation have no glyph. */
  lemma MissingGlyphs()
    ensures Lookup('M') == Err(UnknownGlyph('M')) && 'M' !in CharMap
    ensures Lookup('W') == Err(UnknownGlyph('W')) && 'W' !in CharMap
    ensures Lookup('X') == Err(UnknownGlyph('X')) && 'X' !in CharMap
    ensures Lookup('x') == Err(UnknownGlyph('x')) && 'x' !in CharMap
    ensures Lookup('!') == Err(UnknownGlyph('!')) && '!' !in CharMap
  {
    LookupIsTable('M');
    LookupIsTable('W');
    LookupIsTable('X');
    LookupIsTable('x');
    LookupIsTable('!');
  }
}
