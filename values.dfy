/**
  Values shared by the serializer mixins and the rest of the model: the
  configured language list, the per-language key scheme `F_xx`, the values a
  request payload or a serialized dict can hold, and Python truthiness.
 */
module Values {
  import opened Strings

  datatype Option<+T> = None | Some(value: T)

  datatype Result<+T, +E> = Ok(value: T) | Err(error: E)

  /** One `(code, name)` entry of the configured language list (`settings.LANGUAGES`). */
  datatype Language = Language(code: string, name: string)

  /** `"_" + code.lower()`, the suffix that marks a per-language key. */
  function Suffix(code: string): string
  {
    "_" + Lower(code)
  }

  /** `f"{field_name}_{lang_code.lower()}"`. */
  function LangKey(field: string, code: string): string
  {
    field + Suffix(code)
  }

  /** The languages of apps/shared/models.py, in declaration order. */
  function ExampleLanguages(): seq<Language>
  {
    [Language("RU", "Russian"), Language("EN", "English"), Language("CRL", "Cyrillic"), Language("UZ", "Uzbek")]
  }

  /**
    A language list whose codes contain no underscore and stay distinct once
    lower-cased. Under it a per-language key names its field and language
    unambiguously.
   */
  predicate CodesWellFormed(langs: seq<Language>)
  {
    && (forall i :: 0 <= i < |langs| ==> '_' !in langs[i].code)
    && (forall i, j :: 0 <= i < j < |langs| ==> Lower(langs[i].code) != Lower(langs[j].code))
  }

  lemma ExampleLanguagesWellFormed()
    ensures CodesWellFormed(ExampleLanguages())
  {
    var ls := ExampleLanguages();
    assert Lower("RU") == "ru" && Lower("EN") == "en" && Lower("CRL") == "crl" && Lower("UZ") == "uz";
    forall i, j | 0 <= i < j < |ls|
      ensures Lower(ls[i].code) != Lower(ls[j].code)
    {
      assert Lower(ls[i].code)[0] != Lower(ls[j].code)[0] || |Lower(ls[i].code)| != |Lower(ls[j].code)|;
    }
  }

  lemma LowerKeepsNoUnderscore(s: string)
    requires '_' !in s
    ensures '_' !in Lower(s)
  {
    assert forall i :: 0 <= i < |s| ==> Lower(s)[i] != '_';
  }

  /** In `p + "_" + y` with an underscore-free `y`, no underscore follows index `|p|`. */
  lemma LastUnderscore(p: string, y: string)
    requires '_' !in y
    ensures forall i :: |p| < i < |p + "_" + y| ==> (p + "_" + y)[i] != '_'
  {
    forall i | |p| < i < |p + "_" + y|
      ensures (p + "_" + y)[i] != '_'
    {
      assert (p + "_" + y)[i] == y[i - |p| - 1];
    }
  }

  /**
    With underscore-free codes, the key of field `f` in language `b` ends with the
    suffix of language `a` exactly when the two codes agree once lower-cased.
   */
  lemma {:induction false} KeyEndsWithSuffix(f: string, a: string, b: string)
    requires '_' !in a && '_' !in b
    ensures EndsWith(LangKey(f, b), Suffix(a)) <==> Lower(a) == Lower(b)
  {
    LowerKeepsNoUnderscore(a);
    LowerKeepsNoUnderscore(b);
    var x, y := Lower(a), Lower(b);
    var key := f + "_" + y;
    assert LangKey(f, b) == key;
    if EndsWith(key, "_" + x) {
      var start := |key| - |x| - 1;
      var p := key[..start];
      assert key == p + "_" + x;
      LastUnderscore(p, x);
      LastUnderscore(f, y);
      assert key[start] == '_' && key[|f|] == '_';
      assert start == |f|;
      assert x == key[start + 1..] == y;
    }
    if x == y {
      assert key[|key| - |x| - 1..] == "_" + x;
      assert EndsWith(key, "_" + x);
    }
    assert EndsWith(LangKey(f, b), Suffix(a)) == EndsWith(key, "_" + x);
  }

  /** With underscore-free codes, a per-language key determines its field and its language. */
  lemma KeyInjective(f: string, a: string, g: string, b: string)
    requires '_' !in a && '_' !in b
    requires LangKey(f, a) == LangKey(g, b)
    ensures f == g && Lower(a) == Lower(b)
  {
    KeyEndsWithSuffix(g, a, b);
    assert EndsWith(LangKey(f, a), Suffix(a));
    var k := LangKey(f, a);
    assert |f| == |k| - |Suffix(a)| == |g|;
    assert f == k[..|f|] && g == k[..|g|];
  }

  /** How an f-string renders a nullable text column: `None` becomes the text "None". */
  function Formatted(v: Option<string>): string
  {
    if v.Some? then v.value else "None"
  }

  /** An uploaded file; Django treats a file whose name is empty as false. */
  datatype Upload = Upload(name: string, size: nat)

  datatype MediaKind = Image | Video | Audio | Document | OtherKind

  /** The dict `_get_media` builds for one Media row. */
  datatype MediaItem = MediaItem(
    id: string, url: Option<string>, filename: string, size: nat,
    kind: MediaKind, language: Option<string>)

  /**
    A value of `validated_data`, of a model attribute, or of a serialized
    output dict.
   */
  datatype Value =
    | Null
    | Text(s: string)
    | Number(n: int)
    | Flag(b: bool)
    | Single(file: Upload)
    | Many(files: seq<Upload>)
    | Item(item: MediaItem)
    | Items(items: seq<MediaItem>)

  predicate UploadTruthy(u: Upload)
  {
    u.name != ""
  }

  /** Python truthiness of a value. */
  predicate Truthy(v: Value)
  {
    match v
    case Null => false
    case Text(s) => s != ""
    case Number(n) => n != 0
    case Flag(b) => b
    case Single(u) => UploadTruthy(u)
    case Many(fs) => |fs| > 0
    case Item(_) => true
    case Items(xs) => |xs| > 0
  }
}
