/**
  `TranslatedFieldsWriteMixin`: the create/update side of the multilingual
  serializers. Its constructor manufactures per-language keys (`title_uz`,
  `images_en`, ...) in the serializer's field map; `create` and `update` split
  the media keys out of `validated_data` before the model write and turn every
  uploaded file into a Media row afterwards.
 */
module TranslationWrite {
  import opened Strings
  import opened Values
  import opened Media

  datatype FieldClass = FileClass | FileListClass | DeclaredClass(name: string)

  /** A serializer field with the options the mixin reads or sets. */
  datatype Field = Field(
    cls: FieldClass, required: bool, allowBlank: bool, allowNull: bool,
    allowEmpty: bool, maxLength: Option<nat>, helpText: string)

  /** A media field is list-valued when its name ends with `s`. */
  predicate IsListName(name: string)
  {
    EndsWith(name, "s")
  }

  /**
    The upload field made for media field `name`: an optional list of files
    that may be empty, or an optional single file that may be null.
   */
  function MediaField(name: string, prefix: string): Field
  {
    if IsListName(name) then Field(FileListClass, false, false, false, true, None, prefix + " files")
    else Field(FileClass, false, false, true, false, None, prefix + " file")
  }

  /** The per-language text field: same class and `max_length` as the base field, required, blank and null allowed. */
  function TranslationField(original: Field, langName: string): Field
  {
    Field(original.cls, true, true, true, false, original.maxLength, langName + " translation")
  }

  /** The per-language keys of field `f`, in language order. */
  function LangKeys(f: string, langs: seq<Language>): (ks: seq<string>)
    ensures |ks| == |langs|
    ensures forall j :: 0 <= j < |langs| ==> ks[j] == LangKey(f, langs[j].code)
  {
    if |langs| == 0 then [] else [LangKey(f, langs[0].code)] + LangKeys(f, langs[1..])
  }

  /** A field's own key is never one of its per-language keys: these are longer. */
  lemma OwnKeyIsNotLangKey(f: string, code: string)
    ensures LangKey(f, code) != f
  {
    assert |LangKey(f, code)| > |f|;
  }

  lemma SameFieldKeys(f: string, a: string, b: string)
    ensures LangKey(f, a) == LangKey(f, b) <==> Lower(a) == Lower(b)
  {
    if LangKey(f, a) == LangKey(f, b) {
      assert Lower(a) == LangKey(f, a)[|f| + 1..];
      assert Lower(b) == LangKey(f, b)[|f| + 1..];
    }
  }

  /** With underscore-free codes, per-language keys of two different fields never coincide. */
  lemma DistinctFieldKeys(f: string, a: string, g: string, b: string)
    requires '_' !in a && '_' !in b && f != g
    ensures LangKey(f, a) != LangKey(g, b)
  {
    if LangKey(f, a) == LangKey(g, b) {
      KeyInjective(f, a, g, b);
    }
  }

  /**
    A declaration the mixin can expand without one manufactured key
    overwriting another: well-formed language codes, no translatable field
    listed twice, and no per-language key equal to a declared field name.
   */
  predicate DeclarationWellFormed(tf: seq<string>, media: seq<string>, langs: seq<Language>)
  {
    && CodesWellFormed(langs)
    && (forall i, j :: 0 <= i < j < |tf| ==> tf[i] != tf[j])
    && (forall i, j :: 0 <= i < |tf| && 0 <= j < |langs| ==>
          LangKey(tf[i], langs[j].code) !in tf && LangKey(tf[i], langs[j].code) !in media)
  }

  // ---------------------------------------------------------------------
  // Field expansion (`__init__`), as a specification.
  // ---------------------------------------------------------------------

  /** One iteration of the language loop for field `f`. */
  function PutLangKey(fields: map<string, Field>, f: string, isMedia: bool, lang: Language): map<string, Field>
  {
    var k := LangKey(f, lang.code);
    if isMedia then fields[k := MediaField(f, lang.name)]
    else if f in fields then fields[k := TranslationField(fields[f], lang.name)]
    else fields
  }

  function AddLangKeys(fields: map<string, Field>, f: string, isMedia: bool, langs: seq<Language>): map<string, Field>
    decreases |langs|
  {
    if |langs| == 0 then fields
    else AddLangKeys(PutLangKey(fields, f, isMedia, langs[0]), f, isMedia, langs[1..])
  }

  /** `self.fields[f].required = False` when `f` is a field. */
  function MakeOptional(fields: map<string, Field>, f: string): map<string, Field>
  {
    if f in fields then fields[f := fields[f].(required := false)] else fields
  }

  /** One iteration of the loop over the translatable fields. */
  function ExpandOne(fields: map<string, Field>, f: string, media: seq<string>, langs: seq<Language>): map<string, Field>
  {
    AddLangKeys(MakeOptional(fields, f), f, f in media, langs)
  }

  function ExpandTranslatable(fields: map<string, Field>, tf: seq<string>, media: seq<string>, langs: seq<Language>)
    : map<string, Field>
    decreases |tf|
  {
    if |tf| == 0 then fields
    else ExpandTranslatable(ExpandOne(fields, tf[0], media, langs), tf[1..], media, langs)
  }

  /** The loop over the media fields: a shared (non-translatable) media field gets one un-suffixed key. */
  function AddSharedMedia(fields: map<string, Field>, media: seq<string>, tf: seq<string>): map<string, Field>
    decreases |media|
  {
    if |media| == 0 then fields
    else
      var next := if media[0] !in tf then fields[media[0] := MediaField(media[0], "Media")] else fields;
      AddSharedMedia(next, media[1..], tf)
  }

  /** The field map the constructor leaves behind. */
  function ExpandFields(fields: map<string, Field>, tf: seq<string>, media: seq<string>, langs: seq<Language>)
    : map<string, Field>
  {
    AddSharedMedia(ExpandTranslatable(fields, tf, media, langs), media, tf)
  }

  /** Every key the constructor may add. */
  function ManufacturedKeys(tf: seq<string>, media: seq<string>, langs: seq<Language>): set<string>
  {
    (set i, j | 0 <= i < |tf| && 0 <= j < |langs| :: LangKey(tf[i], langs[j].code))
    + (set m | m in media && m !in tf)
  }

  // Keys only ever get added.

  lemma {:induction false} AddLangKeysGrows(fields: map<string, Field>, f: string, isMedia: bool, langs: seq<Language>)
    ensures fields.Keys <= AddLangKeys(fields, f, isMedia, langs).Keys
    decreases |langs|
  {
    if |langs| > 0 {
      AddLangKeysGrows(PutLangKey(fields, f, isMedia, langs[0]), f, isMedia, langs[1..]);
    }
  }

  lemma {:induction false} ExpandTranslatableGrows(fields: map<string, Field>, tf: seq<string>, media: seq<string>, langs: seq<Language>)
    ensures fields.Keys <= ExpandTranslatable(fields, tf, media, langs).Keys
    decreases |tf|
  {
    if |tf| > 0 {
      AddLangKeysGrows(MakeOptional(fields, tf[0]), tf[0], tf[0] in media, langs);
      ExpandTranslatableGrows(ExpandOne(fields, tf[0], media, langs), tf[1..], media, langs);
    }
  }

  lemma {:induction false} AddSharedMediaGrows(fields: map<string, Field>, media: seq<string>, tf: seq<string>)
    ensures fields.Keys <= AddSharedMedia(fields, media, tf).Keys
    ensures forall m :: m in media && m !in tf ==> m in AddSharedMedia(fields, media, tf)
    decreases |media|
  {
    if |media| > 0 {
      var next := if media[0] !in tf then fields[media[0] := MediaField(media[0], "Media")] else fields;
      AddSharedMediaGrows(next, media[1..], tf);
    }
  }

  /** The constructor keeps every declared field. */
  lemma ExpandKeepsDeclared(fields: map<string, Field>, tf: seq<string>, media: seq<string>, langs: seq<Language>)
    ensures fields.Keys <= ExpandFields(fields, tf, media, langs).Keys
  {
    ExpandTranslatableGrows(fields, tf, media, langs);
    AddSharedMediaGrows(ExpandTranslatable(fields, tf, media, langs), media, tf);
  }

  // Which keys get added.

  lemma {:induction false} AddLangKeysAdds(fields: map<string, Field>, f: string, isMedia: bool, langs: seq<Language>, j: int)
    requires 0 <= j < |langs|
    requires isMedia || f in fields
    ensures LangKey(f, langs[j].code) in AddLangKeys(fields, f, isMedia, langs)
    decreases |langs|
  {
    var next := PutLangKey(fields, f, isMedia, langs[0]);
    if j == 0 {
      AddLangKeysGrows(next, f, isMedia, langs[1..]);
    } else {
      AddLangKeysAdds(next, f, isMedia, langs[1..], j - 1);
    }
  }

  lemma {:induction false} ExpandTranslatableAdds(fields: map<string, Field>, tf: seq<string>, media: seq<string>,
                                                  langs: seq<Language>, i: int, j: int)
    requires 0 <= i < |tf| && 0 <= j < |langs|
    requires tf[i] in media || tf[i] in fields
    ensures LangKey(tf[i], langs[j].code) in ExpandTranslatable(fields, tf, media, langs)
    decreases |tf|
  {
    var next := ExpandOne(fields, tf[0], media, langs);
    AddLangKeysGrows(MakeOptional(fields, tf[0]), tf[0], tf[0] in media, langs);
    if i == 0 {
      AddLangKeysAdds(MakeOptional(fields, tf[0]), tf[0], tf[0] in media, langs, j);
      ExpandTranslatableGrows(next, tf[1..], media, langs);
    } else {
      ExpandTranslatableAdds(next, tf[1..], media, langs, i - 1, j);
    }
  }

  /**
    Key naming: every translatable field gets the key `F_xx` for every
    configured language, a media one always and a text one when `F` is a
    declared field; every shared media field gets its own un-suffixed key.
   */
  lemma ExpandAddsKeys(fields: map<string, Field>, tf: seq<string>, media: seq<string>, langs: seq<Language>)
    ensures forall i, j :: 0 <= i < |tf| && 0 <= j < |langs| && (tf[i] in media || tf[i] in fields) ==>
              LangKey(tf[i], langs[j].code) in ExpandFields(fields, tf, media, langs)
    ensures forall m :: m in media && m !in tf ==> m in ExpandFields(fields, tf, media, langs)
  {
    var mid := ExpandTranslatable(fields, tf, media, langs);
    AddSharedMediaGrows(mid, media, tf);
    forall i, j | 0 <= i < |tf| && 0 <= j < |langs| && (tf[i] in media || tf[i] in fields)
      ensures LangKey(tf[i], langs[j].code) in ExpandFields(fields, tf, media, langs)
    {
      ExpandTranslatableAdds(fields, tf, media, langs, i, j);
    }
  }

  lemma {:induction false} AddLangKeysOnly(fields: map<string, Field>, f: string, isMedia: bool, langs: seq<Language>)
    ensures forall k :: k in AddLangKeys(fields, f, isMedia, langs) ==> k in fields || k in LangKeys(f, langs)
    decreases |langs|
  {
    if |langs| > 0 {
      AddLangKeysOnly(PutLangKey(fields, f, isMedia, langs[0]), f, isMedia, langs[1..]);
    }
  }

  lemma {:induction false} ExpandTranslatableOnly(fields: map<string, Field>, tf: seq<string>, media: seq<string>, langs: seq<Language>)
    ensures forall k :: k in ExpandTranslatable(fields, tf, media, langs) ==>
              k in fields || exists i, j :: 0 <= i < |tf| && 0 <= j < |langs| && k == LangKey(tf[i], langs[j].code)
    decreases |tf|
  {
    if |tf| > 0 {
      var next := ExpandOne(fields, tf[0], media, langs);
      AddLangKeysOnly(MakeOptional(fields, tf[0]), tf[0], tf[0] in media, langs);
      ExpandTranslatableOnly(next, tf[1..], media, langs);
      forall k | k in ExpandTranslatable(fields, tf, media, langs)
        ensures k in fields || exists i, j :: 0 <= i < |tf| && 0 <= j < |langs| && k == LangKey(tf[i], langs[j].code)
      {
        if k !in fields {
          if k in next {
            assert k in LangKeys(tf[0], langs);
            var j :| 0 <= j < |langs| && LangKeys(tf[0], langs)[j] == k;
            assert k == LangKey(tf[0], langs[j].code);
          } else {
            var i, j :| 0 <= i < |tf[1..]| && 0 <= j < |langs| && k == LangKey(tf[1..][i], langs[j].code);
            assert k == LangKey(tf[i + 1], langs[j].code);
          }
        }
      }
    }
  }

  lemma {:induction false} AddSharedMediaOnly(fields: map<string, Field>, media: seq<string>, tf: seq<string>)
    ensures forall k :: k in AddSharedMedia(fields, media, tf) ==> k in fields || (k in media && k !in tf)
    decreases |media|
  {
    if |media| > 0 {
      var next := if media[0] !in tf then fields[media[0] := MediaField(media[0], "Media")] else fields;
      AddSharedMediaOnly(next, media[1..], tf);
    }
  }

  /** The constructor adds nothing but the manufactured keys. */
  lemma ExpandAddsOnlyManufactured(fields: map<string, Field>, tf: seq<string>, media: seq<string>, langs: seq<Language>)
    ensures ExpandFields(fields, tf, media, langs).Keys <= fields.Keys + ManufacturedKeys(tf, media, langs)
  {
    var mid := ExpandTranslatable(fields, tf, media, langs);
    ExpandTranslatableOnly(fields, tf, media, langs);
    AddSharedMediaOnly(mid, media, tf);
  }

  /** A text field that is not a field gets no per-language keys. */
  lemma {:induction false} AddLangKeysSkips(fields: map<string, Field>, f: string, langs: seq<Language>)
    requires f !in fields
    ensures AddLangKeys(fields, f, false, langs) == fields
    decreases |langs|
  {
    if |langs| > 0 {
      AddLangKeysSkips(PutLangKey(fields, f, false, langs[0]), f, langs[1..]);
    }
  }

  lemma {:induction false} ExpandTranslatableSkips(fields: map<string, Field>, tf: seq<string>, media: seq<string>,
                                                   langs: seq<Language>, i: int, j: int)
    requires DeclarationWellFormed(tf, media, langs) && 0 <= i < |tf| && 0 <= j < |langs|
    requires tf[i] !in media && tf[i] !in fields && LangKey(tf[i], langs[j].code) !in fields
    ensures LangKey(tf[i], langs[j].code) !in ExpandTranslatable(fields, tf, media, langs)
    decreases |tf|
  {
    var k := LangKey(tf[i], langs[j].code);
    var next := ExpandOne(fields, tf[0], media, langs);
    WellFormedTail(tf, media, langs);
    if i == 0 {
      AddLangKeysSkips(fields, tf[0], langs);
      ExpandTranslatableOnly(next, tf[1..], media, langs);
      forall a, b | 0 <= a < |tf[1..]| && 0 <= b < |langs|
        ensures k != LangKey(tf[1..][a], langs[b].code)
      {
        assert tf[1..][a] == tf[a + 1];
        DistinctFieldKeys(tf[0], langs[j].code, tf[a + 1], langs[b].code);
      }
    } else {
      assert tf[1..][i - 1] == tf[i];
      AddLangKeysOnly(MakeOptional(fields, tf[0]), tf[0], tf[0] in media, langs);
      forall b | 0 <= b < |langs|
        ensures k != LangKeys(tf[0], langs)[b] && tf[i] != LangKeys(tf[0], langs)[b]
      {
        DistinctFieldKeys(tf[i], langs[j].code, tf[0], langs[b].code);
      }
      ExpandTranslatableSkips(next, tf[1..], media, langs, i - 1, j);
    }
  }

  /**
    The converse of key naming: a text field that is not declared gets no
    per-language key, unless that key was itself declared.
   */
  lemma ExpandSkipsUndeclaredText(fields: map<string, Field>, tf: seq<string>, media: seq<string>, langs: seq<Language>,
                                  i: int, j: int)
    requires DeclarationWellFormed(tf, media, langs) && 0 <= i < |tf| && 0 <= j < |langs|
    requires tf[i] !in media && tf[i] !in fields && LangKey(tf[i], langs[j].code) !in fields
    ensures LangKey(tf[i], langs[j].code) !in ExpandFields(fields, tf, media, langs)
  {
    ExpandTranslatableSkips(fields, tf, media, langs, i, j);
    AddSharedMediaOnly(ExpandTranslatable(fields, tf, media, langs), media, tf);
  }

  // What the manufactured keys hold, for a well-formed declaration.

  lemma {:induction false} AddLangKeysFrame(fields: map<string, Field>, f: string, isMedia: bool, langs: seq<Language>, k: string)
    requires k !in LangKeys(f, langs)
    ensures (k in AddLangKeys(fields, f, isMedia, langs)) == (k in fields)
    ensures k in fields ==> AddLangKeys(fields, f, isMedia, langs)[k] == fields[k]
    decreases |langs|
  {
    if |langs| > 0 {
      AddLangKeysFrame(PutLangKey(fields, f, isMedia, langs[0]), f, isMedia, langs[1..], k);
    }
  }

  lemma OwnKeyUntouched(fields: map<string, Field>, f: string, isMedia: bool, langs: seq<Language>)
    ensures (f in AddLangKeys(fields, f, isMedia, langs)) == (f in fields)
    ensures f in fields ==> AddLangKeys(fields, f, isMedia, langs)[f] == fields[f]
  {
    forall j | 0 <= j < |langs| ensures LangKeys(f, langs)[j] != f {
      OwnKeyIsNotLangKey(f, langs[j].code);
    }
    AddLangKeysFrame(fields, f, isMedia, langs, f);
  }

  lemma {:induction false} AddLangKeysValue(fields: map<string, Field>, f: string, isMedia: bool, langs: seq<Language>, j: int)
    requires 0 <= j < |langs|
    requires forall a, b :: 0 <= a < b < |langs| ==> Lower(langs[a].code) != Lower(langs[b].code)
    requires isMedia || f in fields
    ensures LangKey(f, langs[j].code) in AddLangKeys(fields, f, isMedia, langs)
    ensures AddLangKeys(fields, f, isMedia, langs)[LangKey(f, langs[j].code)]
            == if isMedia then MediaField(f, langs[j].name) else TranslationField(fields[f], langs[j].name)
    decreases |langs|
  {
    var next := PutLangKey(fields, f, isMedia, langs[0]);
    OwnKeyIsNotLangKey(f, langs[0].code);
    if j == 0 {
      var k := LangKey(f, langs[0].code);
      forall b | 0 <= b < |langs[1..]| ensures LangKeys(f, langs[1..])[b] != k {
        SameFieldKeys(f, langs[0].code, langs[b + 1].code);
      }
      AddLangKeysFrame(next, f, isMedia, langs[1..], k);
    } else {
      AddLangKeysValue(next, f, isMedia, langs[1..], j - 1);
    }
  }

  lemma WellFormedTail(tf: seq<string>, media: seq<string>, langs: seq<Language>)
    requires |tf| > 0 && DeclarationWellFormed(tf, media, langs)
    ensures DeclarationWellFormed(tf[1..], media, langs)
  {
    forall i, j | 0 <= i < |tf[1..]| && 0 <= j < |langs|
      ensures LangKey(tf[1..][i], langs[j].code) !in tf[1..] && LangKey(tf[1..][i], langs[j].code) !in media
    {
      assert tf[1..][i] == tf[i + 1];
      assert LangKey(tf[i + 1], langs[j].code) !in tf;
    }
  }

  /** A key that is neither `f` nor one of its per-language keys passes through one step unchanged. */
  lemma ExpandOneFrame(fields: map<string, Field>, f: string, media: seq<string>, langs: seq<Language>, k: string)
    requires k != f && k !in LangKeys(f, langs)
    ensures (k in ExpandOne(fields, f, media, langs)) == (k in fields)
    ensures k in fields ==> ExpandOne(fields, f, media, langs)[k] == fields[k]
  {
    AddLangKeysFrame(MakeOptional(fields, f), f, f in media, langs, k);
  }

  lemma {:induction false} ExpandTranslatableFrame(fields: map<string, Field>, tf: seq<string>, media: seq<string>,
                                                   langs: seq<Language>, k: string)
    requires k !in tf
    requires forall i, j :: 0 <= i < |tf| && 0 <= j < |langs| ==> k != LangKey(tf[i], langs[j].code)
    ensures (k in ExpandTranslatable(fields, tf, media, langs)) == (k in fields)
    ensures k in fields ==> ExpandTranslatable(fields, tf, media, langs)[k] == fields[k]
    decreases |tf|
  {
    if |tf| > 0 {
      assert forall j :: 0 <= j < |langs| ==> LangKeys(tf[0], langs)[j] != k;
      ExpandOneFrame(fields, tf[0], media, langs, k);
      forall i, j | 0 <= i < |tf[1..]| && 0 <= j < |langs|
        ensures k != LangKey(tf[1..][i], langs[j].code)
      {
        assert tf[1..][i] == tf[i + 1];
      }
      ExpandTranslatableFrame(ExpandOne(fields, tf[0], media, langs), tf[1..], media, langs, k);
    }
  }

  /** Under a well-formed declaration, the later translatable fields leave the keys of `tf[0]` alone. */
  lemma LaterStepsSkip(tf: seq<string>, media: seq<string>, langs: seq<Language>, k: string)
    requires |tf| > 0 && DeclarationWellFormed(tf, media, langs)
    requires k == tf[0] || k in LangKeys(tf[0], langs)
    ensures k !in tf[1..]
    ensures forall i, j :: 0 <= i < |tf[1..]| && 0 <= j < |langs| ==> k != LangKey(tf[1..][i], langs[j].code)
  {
    if k == tf[0] {
      forall i, j | 0 <= i < |tf[1..]| && 0 <= j < |langs|
        ensures k != LangKey(tf[1..][i], langs[j].code)
      {
        assert LangKey(tf[i + 1], langs[j].code) !in tf;
      }
      assert forall i :: 0 <= i < |tf[1..]| ==> tf[1..][i] == tf[i + 1] != tf[0];
    } else {
      var a :| 0 <= a < |langs| && LangKeys(tf[0], langs)[a] == k;
      assert k !in tf;
      forall i, j | 0 <= i < |tf[1..]| && 0 <= j < |langs|
        ensures k != LangKey(tf[1..][i], langs[j].code)
      {
        assert tf[1..][i] == tf[i + 1] != tf[0];
        DistinctFieldKeys(tf[0], langs[a].code, tf[i + 1], langs[j].code);
      }
    }
  }

  lemma {:induction false} LangKeyValueAt(fields: map<string, Field>, tf: seq<string>, media: seq<string>,
                                          langs: seq<Language>, i: int, j: int)
    requires DeclarationWellFormed(tf, media, langs)
    requires 0 <= i < |tf| && 0 <= j < |langs|
    requires tf[i] in media || tf[i] in fields
    ensures LangKey(tf[i], langs[j].code) in ExpandTranslatable(fields, tf, media, langs)
    ensures ExpandTranslatable(fields, tf, media, langs)[LangKey(tf[i], langs[j].code)]
            == if tf[i] in media then MediaField(tf[i], langs[j].name) else TranslationField(fields[tf[i]], langs[j].name)
    decreases |tf|
  {
    var next := ExpandOne(fields, tf[0], media, langs);
    if i == 0 {
      AddLangKeysValue(MakeOptional(fields, tf[0]), tf[0], tf[0] in media, langs, j);
      LaterStepsSkip(tf, media, langs, LangKey(tf[0], langs[j].code));
      ExpandTranslatableFrame(next, tf[1..], media, langs, LangKey(tf[0], langs[j].code));
    } else {
      assert tf[1..][i - 1] == tf[i];
      assert tf[i] != tf[0];
      assert forall a :: 0 <= a < |langs| ==> LangKeys(tf[0], langs)[a] != tf[i];
      ExpandOneFrame(fields, tf[0], media, langs, tf[i]);
      WellFormedTail(tf, media, langs);
      LangKeyValueAt(next, tf[1..], media, langs, i - 1, j);
    }
  }

  lemma {:induction false} BaseValueAt(fields: map<string, Field>, tf: seq<string>, media: seq<string>,
                                       langs: seq<Language>, i: int)
    requires DeclarationWellFormed(tf, media, langs)
    requires 0 <= i < |tf| && tf[i] in fields
    ensures tf[i] in ExpandTranslatable(fields, tf, media, langs)
    ensures ExpandTranslatable(fields, tf, media, langs)[tf[i]] == fields[tf[i]].(required := false)
    decreases |tf|
  {
    var next := ExpandOne(fields, tf[0], media, langs);
    if i == 0 {
      OwnKeyUntouched(MakeOptional(fields, tf[0]), tf[0], tf[0] in media, langs);
      LaterStepsSkip(tf, media, langs, tf[0]);
      ExpandTranslatableFrame(next, tf[1..], media, langs, tf[0]);
    } else {
      assert tf[1..][i - 1] == tf[i];
      assert tf[i] != tf[0];
      assert forall a :: 0 <= a < |langs| ==> LangKeys(tf[0], langs)[a] != tf[i];
      ExpandOneFrame(fields, tf[0], media, langs, tf[i]);
      WellFormedTail(tf, media, langs);
      BaseValueAt(next, tf[1..], media, langs, i - 1);
    }
  }

  lemma {:induction false} AddSharedMediaFrame(fields: map<string, Field>, media: seq<string>, tf: seq<string>, k: string)
    requires k !in media || k in tf
    ensures (k in AddSharedMedia(fields, media, tf)) == (k in fields)
    ensures k in fields ==> AddSharedMedia(fields, media, tf)[k] == fields[k]
    decreases |media|
  {
    if |media| > 0 {
      var next := if media[0] !in tf then fields[media[0] := MediaField(media[0], "Media")] else fields;
      AddSharedMediaFrame(next, media[1..], tf, k);
    }
  }

  lemma {:induction false} AddSharedMediaValue(fields: map<string, Field>, media: seq<string>, tf: seq<string>, m: string)
    requires m in media && m !in tf
    ensures m in AddSharedMedia(fields, media, tf)
    ensures AddSharedMedia(fields, media, tf)[m] == MediaField(m, "Media")
    decreases |media|
  {
    var next := if media[0] !in tf then fields[media[0] := MediaField(media[0], "Media")] else fields;
    if m in media[1..] {
      AddSharedMediaValue(next, media[1..], tf, m);
    } else {
      AddSharedMediaFrame(next, media[1..], tf, m);
    }
  }

  /**
    Key shapes, for a well-formed declaration: a translatable media key is an
    optional list of files when the field name ends with `s` and an optional,
    nullable single file otherwise; a text key is required, allows blank and
    null and copies the base field's `max_length`; a declared translatable
    field becomes optional; a shared media field gets the same list/single
    rule under its own name; every other declared field is left as it was.
   */
  lemma ExpandFieldsShapes(fields: map<string, Field>, tf: seq<string>, media: seq<string>, langs: seq<Language>)
    requires DeclarationWellFormed(tf, media, langs)
    ensures var r := ExpandFields(fields, tf, media, langs);
      && (forall i, j :: 0 <= i < |tf| && 0 <= j < |langs| && tf[i] in media ==>
            var k := LangKey(tf[i], langs[j].code);
            k in r && !r[k].required
            && r[k].cls == (if IsListName(tf[i]) then FileListClass else FileClass)
            && r[k].allowEmpty == IsListName(tf[i]) && r[k].allowNull == !IsListName(tf[i]))
      && (forall i, j :: 0 <= i < |tf| && 0 <= j < |langs| && tf[i] !in media && tf[i] in fields ==>
            var k := LangKey(tf[i], langs[j].code);
            k in r && r[k].required && r[k].allowBlank && r[k].allowNull
            && r[k].cls == fields[tf[i]].cls && r[k].maxLength == fields[tf[i]].maxLength)
      && (forall i :: 0 <= i < |tf| && tf[i] in fields ==> tf[i] in r && r[tf[i]] == fields[tf[i]].(required := false))
      && (forall m :: m in media && m !in tf ==>
            m in r && !r[m].required && r[m].cls == (if IsListName(m) then FileListClass else FileClass))
      && (forall k :: k in fields && k !in tf && k !in media && k !in ManufacturedKeys(tf, media, langs) ==>
            k in r && r[k] == fields[k])
  {
    var mid := ExpandTranslatable(fields, tf, media, langs);
    var r := ExpandFields(fields, tf, media, langs);
    forall i, j | 0 <= i < |tf| && 0 <= j < |langs| && (tf[i] in media || tf[i] in fields)
      ensures var k := LangKey(tf[i], langs[j].code);
        k in r && r[k] == if tf[i] in media then MediaField(tf[i], langs[j].name) else TranslationField(fields[tf[i]], langs[j].name)
    {
      LangKeyValueAt(fields, tf, media, langs, i, j);
      AddSharedMediaFrame(mid, media, tf, LangKey(tf[i], langs[j].code));
    }
    forall i | 0 <= i < |tf| && tf[i] in fields
      ensures tf[i] in r && r[tf[i]] == fields[tf[i]].(required := false)
    {
      BaseValueAt(fields, tf, media, langs, i);
      AddSharedMediaFrame(mid, media, tf, tf[i]);
    }
    forall m | m in media && m !in tf
      ensures m in r && r[m] == MediaField(m, "Media")
    {
      AddSharedMediaValue(mid, media, tf, m);
    }
    forall k | k in fields && k !in tf && k !in media && k !in ManufacturedKeys(tf, media, langs)
      ensures k in r && r[k] == fields[k]
    {
      ExpandTranslatableFrame(fields, tf, media, langs, k);
      AddSharedMediaFrame(mid, media, tf, k);
    }
  }

  // ---------------------------------------------------------------------
  // Extracting the media keys from `validated_data`, as a specification.
  // ---------------------------------------------------------------------

  /** The keys `_extract_media_data` looks up, in order: `F_xx` per language for a translatable media field, `F` otherwise. */
  function MediaCandidates(media: seq<string>, tf: seq<string>, langs: seq<Language>): seq<string>
    decreases |media|
  {
    if |media| == 0 then []
    else (if media[0] in tf then LangKeys(media[0], langs) else [media[0]]) + MediaCandidates(media[1..], tf, langs)
  }

  /** The entries moved so far (in insertion order, as the `media_data` dict keeps them) and what is left of `validated_data`. */
  datatype Extraction = Extraction(media: seq<(string, Value)>, remaining: map<string, Value>)

  /** `if key in validated_data: media_data[key] = validated_data.pop(key)`. */
  function ExtractKey(e: Extraction, key: string): Extraction
  {
    if key in e.remaining then Extraction(e.media + [(key, e.remaining[key])], e.remaining - {key}) else e
  }

  function ExtractKeys(e: Extraction, keys: seq<string>): Extraction
    decreases |keys|
  {
    if |keys| == 0 then e else ExtractKeys(ExtractKey(e, keys[0]), keys[1..])
  }

  /** What `_extract_media_data` returns and leaves in `validated_data`. */
  function Extract(validated: map<string, Value>, media: seq<string>, tf: seq<string>, langs: seq<Language>): Extraction
  {
    ExtractKeys(Extraction([], validated), MediaCandidates(media, tf, langs))
  }

  lemma {:induction false} ExtractKeysAppend(e: Extraction, a: seq<string>, b: seq<string>)
    ensures ExtractKeys(e, a + b) == ExtractKeys(ExtractKeys(e, a), b)
    decreases |a|
  {
    if |a| > 0 {
      assert (a + b)[0] == a[0] && (a + b)[1..] == a[1..] + b;
      ExtractKeysAppend(ExtractKey(e, a[0]), a[1..], b);
    } else {
      assert a + b == b;
    }
  }

  /** A per-language key of a translatable media field, or a shared media field. */
  ghost predicate CandidateKey(media: seq<string>, tf: seq<string>, langs: seq<Language>, k: string)
  {
    (exists i, j :: 0 <= i < |media| && 0 <= j < |langs| && media[i] in tf && k == LangKey(media[i], langs[j].code))
    || (k in media && k !in tf)
  }

  /** The candidate keys are exactly the per-language keys of the translatable media fields and the shared media fields. */
  lemma CandidatesAre(media: seq<string>, tf: seq<string>, langs: seq<Language>, k: string)
    ensures k in MediaCandidates(media, tf, langs) <==>
              (exists i, j :: 0 <= i < |media| && 0 <= j < |langs| && media[i] in tf && k == LangKey(media[i], langs[j].code))
              || (k in media && k !in tf)
  {
    if k in MediaCandidates(media, tf, langs) {
      CandidatesSound(media, tf, langs, k);
    }
    if CandidateKey(media, tf, langs, k) {
      CandidatesComplete(media, tf, langs, k);
    }
  }

  lemma {:induction false} CandidatesSound(media: seq<string>, tf: seq<string>, langs: seq<Language>, k: string)
    requires k in MediaCandidates(media, tf, langs)
    ensures CandidateKey(media, tf, langs, k)
    decreases |media|
  {
    var head := if media[0] in tf then LangKeys(media[0], langs) else [media[0]];
    assert MediaCandidates(media, tf, langs) == head + MediaCandidates(media[1..], tf, langs);
    if k in head {
      if media[0] in tf {
        var j :| 0 <= j < |langs| && head[j] == k;
        assert media[0] in tf && k == LangKey(media[0], langs[j].code);
      } else {
        assert k == media[0];
      }
    } else {
      CandidatesSound(media[1..], tf, langs, k);
      if exists i, j :: 0 <= i < |media[1..]| && 0 <= j < |langs| && media[1..][i] in tf && k == LangKey(media[1..][i], langs[j].code) {
        var i, j :| 0 <= i < |media[1..]| && 0 <= j < |langs| && media[1..][i] in tf && k == LangKey(media[1..][i], langs[j].code);
        assert media[i + 1] == media[1..][i];
      } else {
        assert media == [media[0]] + media[1..];
      }
    }
  }

  lemma {:induction false} CandidatesComplete(media: seq<string>, tf: seq<string>, langs: seq<Language>, k: string)
    requires CandidateKey(media, tf, langs, k)
    ensures k in MediaCandidates(media, tf, langs)
    decreases |media|
  {
    var head := if media[0] in tf then LangKeys(media[0], langs) else [media[0]];
    assert MediaCandidates(media, tf, langs) == head + MediaCandidates(media[1..], tf, langs);
    if exists i, j :: 0 <= i < |media| && 0 <= j < |langs| && media[i] in tf && k == LangKey(media[i], langs[j].code) {
      var i, j :| 0 <= i < |media| && 0 <= j < |langs| && media[i] in tf && k == LangKey(media[i], langs[j].code);
      if i == 0 {
        assert head[j] == k;
      } else {
        assert media[1..][i - 1] == media[i];
        assert CandidateKey(media[1..], tf, langs, k);
        CandidatesComplete(media[1..], tf, langs, k);
      }
    } else if k == media[0] {
      assert head == [k];
    } else {
      assert k in media[1..];
      CandidatesComplete(media[1..], tf, langs, k);
    }
  }

  /**
    Everything extraction promises about the keys seen so far (`done`): they
    are gone from what is left, each was moved once, with its value, in the
    order seen, and nothing else was touched.
   */
  ghost predicate ExtractionInv(e: Extraction, validated: map<string, Value>, done: set<string>)
  {
    && e.remaining == validated - done
    && (forall i :: 0 <= i < |e.media| ==>
          e.media[i].0 in done && e.media[i].0 in validated && e.media[i].1 == validated[e.media[i].0])
    && (forall i, j :: 0 <= i < j < |e.media| ==> e.media[i].0 != e.media[j].0)
    && (forall k :: k in validated && k in done ==> exists i :: 0 <= i < |e.media| && e.media[i].0 == k)
  }

  lemma ExtractKeyInv(e: Extraction, validated: map<string, Value>, done: set<string>, key: string)
    requires ExtractionInv(e, validated, done)
    ensures ExtractionInv(ExtractKey(e, key), validated, done + {key})
  {
    var e2 := ExtractKey(e, key);
    if key in e.remaining {
      forall k | k in validated && k in done + {key}
        ensures exists i :: 0 <= i < |e2.media| && e2.media[i].0 == k
      {
        if k == key {
          assert e2.media[|e.media|].0 == key;
        } else {
          var i :| 0 <= i < |e.media| && e.media[i].0 == k;
          assert e2.media[i] == e.media[i];
        }
      }
    } else {
      assert key !in validated || key in done;
    }
    assert e2.remaining == validated - (done + {key});
  }

  lemma {:induction false} ExtractKeysInv(e: Extraction, validated: map<string, Value>, done: set<string>, keys: seq<string>)
    requires ExtractionInv(e, validated, done)
    ensures ExtractionInv(ExtractKeys(e, keys), validated, done + (set k | k in keys))
    decreases |keys|
  {
    if |keys| > 0 {
      ExtractKeyInv(e, validated, done, keys[0]);
      ExtractKeysInv(ExtractKey(e, keys[0]), validated, done + {keys[0]}, keys[1..]);
      assert (done + {keys[0]}) + (set k | k in keys[1..]) == done + (set k | k in keys);
    } else {
      assert (set k | k in keys) == {};
      assert done + (set k | k in keys) == done;
    }
  }

  /**
    Extraction splits `validated_data`: every candidate key present moves to the
    media entries exactly once, with its value; every other key stays, with its
    value; no candidate key is left behind.
   */
  lemma ExtractSplits(validated: map<string, Value>, media: seq<string>, tf: seq<string>, langs: seq<Language>)
    ensures var e := Extract(validated, media, tf, langs);
      var cands := MediaCandidates(media, tf, langs);
      && e.remaining == validated - (set k | k in cands)
      && (forall i :: 0 <= i < |e.media| ==>
            e.media[i].0 in cands && e.media[i].0 in validated && e.media[i].1 == validated[e.media[i].0])
      && (forall i, j :: 0 <= i < j < |e.media| ==> e.media[i].0 != e.media[j].0)
      && (forall k :: k in validated && k in cands ==> exists i :: 0 <= i < |e.media| && e.media[i].0 == k)
  {
    var cands := MediaCandidates(media, tf, langs);
    assert ExtractionInv(Extraction([], validated), validated, {});
    ExtractKeysInv(Extraction([], validated), validated, {}, cands);
    assert {} + (set k | k in cands) == set k | k in cands;
  }

  /**
    The extraction partitions `validated_data`: every key lands either among
    the extracted media entries or in what remains, never in both, and the
    remaining values are the original ones; together the two give back the
    original map.
   */
  lemma ExtractPartitions(validated: map<string, Value>, media: seq<string>, tf: seq<string>, langs: seq<Language>)
    ensures var e := Extract(validated, media, tf, langs);
      && (forall k :: k in validated <==> (k in e.remaining || exists i :: 0 <= i < |e.media| && e.media[i].0 == k))
      && (forall i :: 0 <= i < |e.media| ==> e.media[i].0 !in e.remaining)
      && (forall k :: k in e.remaining ==> e.remaining[k] == validated[k])
  {
    ExtractSplits(validated, media, tf, langs);
  }

  // ---------------------------------------------------------------------
  // Saving the uploads as Media rows, as a specification.
  // ---------------------------------------------------------------------

  /**
    The language of a media key: the first configured language whose suffix
    `_xx` ends the key, with every occurrence of that suffix removed from the
    key to give the base field name; no language and the key itself otherwise.
   */
  function DetectLanguage(key: string, langs: seq<Language>): (Option<string>, string)
    decreases |langs|
  {
    if |langs| == 0 then (None, key)
    else if EndsWith(key, Suffix(langs[0].code)) then (Some(langs[0].code), RemoveAll(key, Suffix(langs[0].code)))
    else DetectLanguage(key, langs[1..])
  }

  /** `files if isinstance(files, list) else [files]`, for the values an upload field produces. */
  function FileList(v: Value): seq<Upload>
  {
    match v
    case Many(fs) => fs
    case Single(u) => [u]
    case _ => []
  }

  /** The rows `Media.objects.create` adds for the truthy files of one entry, with consecutive ids from `id0`. */
  function UploadRows(id0: nat, owner: Owner, user: Option<nat>, kind: MediaKind, language: Option<string>,
                      files: seq<Upload>): seq<MediaRow>
    decreases |files|
  {
    if |files| == 0 then []
    else if UploadTruthy(files[0]) then
      [MediaRow(id0, owner, Some(files[0]), kind, files[0].name, user, language, true, files[0].size)]
      + UploadRows(id0 + 1, owner, user, kind, language, files[1..])
    else UploadRows(id0, owner, user, kind, language, files[1..])
  }

  /** The rows saved for one `media_data` entry; a falsy value saves nothing. */
  function EntryRows(id0: nat, owner: Owner, user: Option<nat>, entry: (string, Value), langs: seq<Language>)
    : seq<MediaRow>
  {
    if !Truthy(entry.1) then []
    else
      var d := DetectLanguage(entry.0, langs);
      UploadRows(id0, owner, user, KindOf(d.1), d.0, FileList(entry.1))
  }

  /** The rows `_save_media_files` adds, entry after entry. */
  function NewRows(id0: nat, owner: Owner, user: Option<nat>, entries: seq<(string, Value)>, langs: seq<Language>)
    : seq<MediaRow>
    decreases |entries|
  {
    if |entries| == 0 then []
    else
      var head := EntryRows(id0, owner, user, entries[0], langs);
      head + NewRows(id0 + |head|, owner, user, entries[1..], langs)
  }

  /** Saving entry `i` of the rows still to save. */
  lemma NewRowsStep(id0: nat, owner: Owner, user: Option<nat>, entries: seq<(string, Value)>, i: nat, langs: seq<Language>)
    requires i < |entries|
    ensures var head := EntryRows(id0, owner, user, entries[i], langs);
      NewRows(id0, owner, user, entries[i..], langs) == head + NewRows(id0 + |head|, owner, user, entries[i + 1..], langs)
  {
    assert entries[i..][0] == entries[i];
    assert entries[i..][1..] == entries[i + 1..];
  }

  lemma AppendAssoc(a: seq<MediaRow>, b: seq<MediaRow>, c: seq<MediaRow>)
    ensures (a + b) + c == a + (b + c)
  {
  }

  /** Every row saved for one entry is a public copy of one truthy uploaded file, for the given owner and uploader. */
  ghost predicate SavedRow(r: MediaRow, owner: Owner, user: Option<nat>)
  {
    r.owner == owner && r.uploadedBy == user && r.isPublic
    && r.file.Some? && UploadTruthy(r.file.value)
    && r.originalFilename == r.file.value.name && r.fileSize == r.file.value.size
  }

  lemma {:induction false} UploadRowsShape(id0: nat, owner: Owner, user: Option<nat>, kind: MediaKind,
                                           language: Option<string>, files: seq<Upload>)
    ensures var rs := UploadRows(id0, owner, user, kind, language, files);
      && |rs| <= |files|
      && (forall i :: 0 <= i < |rs| ==>
            SavedRow(rs[i], owner, user) && rs[i].id == id0 + i && rs[i].kind == kind && rs[i].language == language
            && rs[i].file.value in files)
      && (forall u :: u in files && UploadTruthy(u) ==> exists i :: 0 <= i < |rs| && rs[i].file == Some(u))
    decreases |files|
  {
    if |files| > 0 {
      UploadRowsShape(id0 + 1, owner, user, kind, language, files[1..]);
      UploadRowsShape(id0, owner, user, kind, language, files[1..]);
      var rs := UploadRows(id0, owner, user, kind, language, files);
      forall u | u in files && UploadTruthy(u)
        ensures exists i :: 0 <= i < |rs| && rs[i].file == Some(u)
      {
        if u == files[0] {
          assert rs[0].file == Some(u);
        } else {
          assert u in files[1..];
          if UploadTruthy(files[0]) {
            var rest := UploadRows(id0 + 1, owner, user, kind, language, files[1..]);
            var i :| 0 <= i < |rest| && rest[i].file == Some(u);
            assert rs[i + 1] == rest[i];
          }
        }
      }
    }
  }

  /** Rows saved for `owner` by `user`, numbered consecutively from `id0`. */
  ghost predicate SavedRun(rs: seq<MediaRow>, owner: Owner, user: Option<nat>, id0: nat)
  {
    forall i :: 0 <= i < |rs| ==> SavedRow(rs[i], owner, user) && rs[i].id == id0 + i
  }

  lemma SavedRunAppend(a: seq<MediaRow>, b: seq<MediaRow>, owner: Owner, user: Option<nat>, id0: nat)
    requires SavedRun(a, owner, user, id0) && SavedRun(b, owner, user, id0 + |a|)
    ensures SavedRun(a + b, owner, user, id0)
  {
    forall i | 0 <= i < |a + b|
      ensures SavedRow((a + b)[i], owner, user) && (a + b)[i].id == id0 + i
    {
      if i >= |a| {
        assert (a + b)[i] == b[i - |a|];
      }
    }
  }

  /**
    Saving: the new rows get consecutive ids from `id0`, each is a public row
    of the given owner and uploader holding one truthy uploaded file.
   */
  lemma {:induction false} NewRowsShape(id0: nat, owner: Owner, user: Option<nat>, entries: seq<(string, Value)>,
                                        langs: seq<Language>)
    ensures SavedRun(NewRows(id0, owner, user, entries, langs), owner, user, id0)
    decreases |entries|
  {
    if |entries| > 0 {
      var head := EntryRows(id0, owner, user, entries[0], langs);
      if Truthy(entries[0].1) {
        var d := DetectLanguage(entries[0].0, langs);
        assert head == UploadRows(id0, owner, user, KindOf(d.1), d.0, FileList(entries[0].1));
        UploadRowsShape(id0, owner, user, KindOf(d.1), d.0, FileList(entries[0].1));
      }
      assert SavedRun(head, owner, user, id0);
      NewRowsShape(id0 + |head|, owner, user, entries[1..], langs);
      SavedRunAppend(head, NewRows(id0 + |head|, owner, user, entries[1..], langs), owner, user, id0);
    }
  }

  /**
    For well-formed codes, the key `F_xx` of language `langs[j]` is recognised as
    that language (its code as configured) and, when the suffix occurs in the key
    only at its end, as field `F`.
   */
  lemma {:induction false} DetectLanguageOfKey(f: string, langs: seq<Language>, j: int)
    requires CodesWellFormed(langs) && 0 <= j < |langs|
    requires forall i :: 0 <= i < |f| ==> !OccursAt(LangKey(f, langs[j].code), Suffix(langs[j].code), i)
    ensures DetectLanguage(LangKey(f, langs[j].code), langs) == (Some(langs[j].code), f)
    decreases |langs|
  {
    KeyEndsWithSuffix(f, langs[0].code, langs[j].code);
    if j == 0 {
      RemoveAllTrailing(f, Suffix(langs[0].code));
    } else {
      assert Lower(langs[0].code) != Lower(langs[j].code);
      assert langs[1..][j - 1] == langs[j];
      DetectLanguageOfKey(f, langs[1..], j - 1);
    }
  }

  /** A key gets no language exactly when it ends with no configured suffix; it is then its own base name. */
  lemma {:induction false} DetectNoLanguage(key: string, langs: seq<Language>)
    ensures DetectLanguage(key, langs).0 == None <==> forall j :: 0 <= j < |langs| ==> !EndsWith(key, Suffix(langs[j].code))
    ensures DetectLanguage(key, langs).0 == None ==> DetectLanguage(key, langs).1 == key
    decreases |langs|
  {
    if |langs| > 0 {
      DetectNoLanguage(key, langs[1..]);
      assert forall j :: 1 <= j < |langs| ==> langs[1..][j - 1] == langs[j];
    }
  }

  /**
    The rows saved for the key `F_xx` of a translatable media field carry the
    language code as configured and the media kind of `F` itself.
   */
  lemma TranslatedEntryRows(id0: nat, owner: Owner, user: Option<nat>, f: string, langs: seq<Language>, j: int, v: Value)
    requires CodesWellFormed(langs) && 0 <= j < |langs|
    requires forall i :: 0 <= i < |f| ==> !OccursAt(LangKey(f, langs[j].code), Suffix(langs[j].code), i)
    ensures EntryRows(id0, owner, user, (LangKey(f, langs[j].code), v), langs)
            == if Truthy(v) then UploadRows(id0, owner, user, KindOf(f), Some(langs[j].code), FileList(v)) else []
  {
    DetectLanguageOfKey(f, langs, j);
  }

  /** The rows saved for a shared media field carry no language and the media kind of the field. */
  lemma SharedEntryRows(id0: nat, owner: Owner, user: Option<nat>, f: string, langs: seq<Language>, v: Value)
    requires forall j :: 0 <= j < |langs| ==> !EndsWith(f, Suffix(langs[j].code))
    ensures EntryRows(id0, owner, user, (f, v), langs)
            == if Truthy(v) then UploadRows(id0, owner, user, KindOf(f), None, FileList(v)) else []
  {
    DetectNoLanguage(f, langs);
  }

  // ---------------------------------------------------------------------
  // The serializer.
  // ---------------------------------------------------------------------

  /** A saved model instance: its owner key (content type and pk) and its attributes. */
  datatype Instance = Instance(owner: Owner, attrs: map<string, Value>)

  /** A create/update serializer using the mixin: its field map and the class-level declaration it expands. */
  class WriteSerializer {
    var fields: map<string, Field>
    const languages: seq<Language>
    const translatableFields: seq<string>
    const mediaFields: seq<string>

    /** `__init__`: starts from the declared fields and manufactures the per-language and shared media keys. */
    constructor (declared: map<string, Field>, tf: seq<string>, media: seq<string>, langs: seq<Language>)
      ensures languages == langs && translatableFields == tf && mediaFields == media
      ensures fields == ExpandFields(declared, tf, media, langs)
    {
      languages := langs;
      translatableFields := tf;
      mediaFields := media;
      var fs := declared;
      var i := 0;
      while i < |tf|
        invariant 0 <= i <= |tf|
        invariant ExpandTranslatable(fs, tf[i..], media, langs) == ExpandTranslatable(declared, tf, media, langs)
      {
        var f := tf[i];
        var isMedia := f in media;
        assert tf[i..][1..] == tf[i + 1..];
        if f in fs {
          fs := fs[f := fs[f].(required := false)];
        }
        var j := 0;
        while j < |langs|
          invariant 0 <= j <= |langs|
          invariant ExpandTranslatable(AddLangKeys(fs, f, isMedia, langs[j..]), tf[i + 1..], media, langs)
                    == ExpandTranslatable(declared, tf, media, langs)
        {
          assert langs[j..][1..] == langs[j + 1..];
          var key := LangKey(f, langs[j].code);
          if isMedia {
            fs := fs[key := MediaField(f, langs[j].name)];
          } else if f in fs {
            fs := fs[key := TranslationField(fs[f], langs[j].name)];
          }
          j := j + 1;
        }
        i := i + 1;
      }
      var m := 0;
      while m < |media|
        invariant 0 <= m <= |media|
        invariant AddSharedMedia(fs, media[m..], tf) == ExpandFields(declared, tf, media, langs)
      {
        assert media[m..][1..] == media[m + 1..];
        if media[m] !in tf {
          fs := fs[media[m] := MediaField(media[m], "Media")];
        }
        m := m + 1;
      }
      fields := fs;
    }

    /**
      `_extract_media_data`: moves the media keys present in `validated_data`
      into the returned entries (in lookup order) and returns what is left.
     */
    method ExtractMediaData(validated: map<string, Value>) returns (mediaData: seq<(string, Value)>, remaining: map<string, Value>)
      ensures Extraction(mediaData, remaining) == Extract(validated, mediaFields, translatableFields, languages)
    {
      ghost var target := Extract(validated, mediaFields, translatableFields, languages);
      mediaData, remaining := [], validated;
      var i := 0;
      while i < |mediaFields|
        invariant 0 <= i <= |mediaFields|
        invariant ExtractKeys(Extraction(mediaData, remaining), MediaCandidates(mediaFields[i..], translatableFields, languages))
                  == target
      {
        var f := mediaFields[i];
        assert mediaFields[i..][1..] == mediaFields[i + 1..];
        ghost var rest := MediaCandidates(mediaFields[i + 1..], translatableFields, languages);
        if f in translatableFields {
          ExtractKeysAppend(Extraction(mediaData, remaining), LangKeys(f, languages), rest);
          var j := 0;
          while j < |languages|
            invariant 0 <= j <= |languages|
            invariant ExtractKeys(ExtractKeys(Extraction(mediaData, remaining), LangKeys(f, languages)[j..]), rest) == target
          {
            var key := LangKey(f, languages[j].code);
            assert LangKeys(f, languages)[j..][0] == key;
            assert LangKeys(f, languages)[j..][1..] == LangKeys(f, languages)[j + 1..];
            if key in remaining {
              mediaData := mediaData + [(key, remaining[key])];
              remaining := remaining - {key};
            }
            j := j + 1;
          }
        } else {
          ExtractKeysAppend(Extraction(mediaData, remaining), [f], rest);
          if f in remaining {
            mediaData := mediaData + [(f, remaining[f])];
            remaining := remaining - {f};
          }
        }
        i := i + 1;
      }
    }

    /**
      `_save_media_files`: one public Media row per truthy uploaded file, with
      the language and base field name read off the entry's key and the kind
      worked out from the base name.
     */
    method SaveMediaFiles(store: MediaStore, owner: Owner, user: Option<nat>, mediaData: seq<(string, Value)>)
      requires store.Valid()
      modifies store
      ensures store.Valid()
      ensures store.rows == old(store.rows) + NewRows(old(store.nextId), owner, user, mediaData, languages)
      ensures store.nextId == old(store.nextId) + |store.rows| - |old(store.rows)|
    {
      ghost var target := store.rows + NewRows(store.nextId, owner, user, mediaData, languages);
      assert mediaData[0..] == mediaData;
      var i := 0;
      while i < |mediaData|
        invariant 0 <= i <= |mediaData|
        invariant store.Valid()
        invariant store.rows + NewRows(store.nextId, owner, user, mediaData[i..], languages) == target
        invariant store.nextId == old(store.nextId) + |store.rows| - |old(store.rows)|
      {
        ghost var before, id := store.rows, store.nextId;
        ghost var head := EntryRows(id, owner, user, mediaData[i], languages);
        ghost var tail := NewRows(id + |head|, owner, user, mediaData[i + 1..], languages);
        NewRowsStep(id, owner, user, mediaData, i, languages);
        SaveEntry(store, owner, user, mediaData[i]);
        AppendAssoc(before, head, tail);
        i := i + 1;
      }
      assert NewRows(store.nextId, owner, user, mediaData[i..], languages) == [];
      assert store.rows + [] == store.rows;
    }

    /** One iteration of the loop over `media_data`: a falsy value is skipped, otherwise its files are saved. */
    method SaveEntry(store: MediaStore, owner: Owner, user: Option<nat>, entry: (string, Value))
      requires store.Valid()
      modifies store
      ensures store.Valid()
      ensures store.rows == old(store.rows) + EntryRows(old(store.nextId), owner, user, entry, languages)
      ensures store.nextId == old(store.nextId) + |EntryRows(old(store.nextId), owner, user, entry, languages)|
    {
      var (key, files) := entry;
      if Truthy(files) {
        var language, base := DetectLanguageOf(key);
        SaveUploads(store, owner, user, KindOf(base), language, FileList(files));
      }
    }

    /** The language-detection loop of `_save_media_files`. */
    method DetectLanguageOf(key: string) returns (language: Option<string>, base: string)
      ensures (language, base) == DetectLanguage(key, languages)
    {
      language, base := None, key;
      var j := 0;
      while j < |languages|
        invariant 0 <= j <= |languages|
        invariant language == None && base == key
        invariant DetectLanguage(key, languages[j..]) == DetectLanguage(key, languages)
      {
        assert languages[j..][1..] == languages[j + 1..];
        var suffix := Suffix(languages[j].code);
        if EndsWith(key, suffix) {
          language := Some(languages[j].code);
          base := RemoveAll(key, suffix);
          break;
        }
        j := j + 1;
      }
    }

    /** The inner loop of `_save_media_files`: one `Media.objects.create` per truthy file. */
    method SaveUploads(store: MediaStore, owner: Owner, user: Option<nat>, kind: MediaKind, language: Option<string>,
                       fileList: seq<Upload>)
      requires store.Valid()
      modifies store
      ensures store.Valid()
      ensures store.rows == old(store.rows) + UploadRows(old(store.nextId), owner, user, kind, language, fileList)
      ensures store.nextId == old(store.nextId) + |UploadRows(old(store.nextId), owner, user, kind, language, fileList)|
    {
      var k := 0;
      while k < |fileList|
        invariant 0 <= k <= |fileList|
        invariant store.Valid()
        invariant store.rows + UploadRows(store.nextId, owner, user, kind, language, fileList[k..])
                  == old(store.rows) + UploadRows(old(store.nextId), owner, user, kind, language, fileList)
        invariant store.nextId + |UploadRows(store.nextId, owner, user, kind, language, fileList[k..])|
                  == old(store.nextId) + |UploadRows(old(store.nextId), owner, user, kind, language, fileList)|
      {
        assert fileList[k..][1..] == fileList[k + 1..];
        if UploadTruthy(fileList[k]) {
          var row := store.Create(owner, fileList[k], kind, user, language);
        }
        k := k + 1;
      }
    }

    /** `create`: the model is written without the media keys, then the uploads are saved against it. */
    method Create(store: MediaStore, validated: map<string, Value>, owner: Owner, user: Option<nat>)
      returns (instance: Instance)
      requires store.Valid()
      modifies store
      ensures store.Valid()
      ensures var e := Extract(validated, mediaFields, translatableFields, languages);
        && instance == Instance(owner, e.remaining)
        && store.rows == old(store.rows) + NewRows(old(store.nextId), owner, user, e.media, languages)
    {
      var mediaData, remaining := ExtractMediaData(validated);
      instance := Instance(owner, remaining);
      SaveMediaFiles(store, owner, user, mediaData);
    }

    /** `update`: the non-media keys overwrite the instance's attributes, then the uploads are saved against it. */
    method Update(store: MediaStore, instance: Instance, validated: map<string, Value>, user: Option<nat>)
      returns (updated: Instance)
      requires store.Valid()
      modifies store
      ensures store.Valid()
      ensures var e := Extract(validated, mediaFields, translatableFields, languages);
        && updated == Instance(instance.owner, instance.attrs + e.remaining)
        && store.rows == old(store.rows) + NewRows(old(store.nextId), instance.owner, user, e.media, languages)
    {
      var mediaData, remaining := ExtractMediaData(validated);
      updated := instance.(attrs := instance.attrs + remaining);
      SaveMediaFiles(store, updated.owner, user, mediaData);
    }
  }
}
