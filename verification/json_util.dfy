/** The application's JSON encoder (pythonsrc/util/json_util.py): how ORM model
    instances and decimals are turned into JSON-serialisable values, and how
    `jsonify` prepares its positional arguments. */
module JsonUtil {
  import opened Wrappers

  /** The Python values that reach the encoder. */
  datatype Value =
    | Null
    | Bool(b: bool)
    | Int(i: int)
    | Str(s: string)
      /** A `decimal.Decimal`; `text` is what `str()` gives for it. */
    | Decimal(text: string)
    | List(items: seq<Value>)
    | Dict(entries: map<string, Value>)
      /** An ORM model instance: its `__dict__` and its optional `__json_exclude__` list. */
    | Model(attrs: map<string, Value>, jsonExclude: Option<seq<string>>)

  /** Attribute names starting with an underscore are private (e.g. `_sa_instance_state`). */
  predicate IsPrivate(k: string)
  {
    |k| > 0 && k[0] == '_'
  }

  /** Python truthiness of the `__json_exclude__` lookup: absent or empty is false. */
  predicate ExcludeGiven(exclude: Option<seq<string>>)
  {
    exclude.Some? && |exclude.value| > 0
  }

  /** The exclusion list in force: the given one, or none at all. */
  function ExcludedKeys(exclude: Option<seq<string>>): seq<string>
  {
    if ExcludeGiven(exclude) then exclude.value else []
  }

  /** Whether an attribute belongs in the JSON form of a model. */
  predicate Serialised(k: string, exclude: seq<string>)
  {
    !IsPrivate(k) && k !in exclude
  }

  /** The public attributes not named in `exclude`, with their values untouched. */
  function FieldsExcluding(attrs: map<string, Value>, exclude: seq<string>): (r: map<string, Value>)
    ensures r.Keys <= attrs.Keys
    ensures forall k :: k in attrs ==> (k in r <==> Serialised(k, exclude))
    ensures forall k :: k in r ==> r[k] == attrs[k]
  {
    map k | k in attrs && !IsPrivate(k) && k !in exclude :: attrs[k]
  }

  /** The public attributes: the branch taken when a model has no exclusion list. */
  function PublicFields(attrs: map<string, Value>): (r: map<string, Value>)
    ensures r.Keys <= attrs.Keys
    ensures forall k :: k in attrs ==> (k in r <==> !IsPrivate(k))
    ensures forall k :: k in r ==> r[k] == attrs[k]
  {
    map k | k in attrs && !IsPrivate(k) :: attrs[k]
  }

  /** The no-exclusion shortcut agrees with the general filter under an empty list. */
  lemma PublicFieldsIsEmptyExclusion(attrs: map<string, Value>)
    ensures PublicFields(attrs) == FieldsExcluding(attrs, [])
  {
  }

  /** Filtering the filtered fields again changes nothing. */
  lemma FieldsExcludingIdempotent(attrs: map<string, Value>, exclude: seq<string>)
    ensures FieldsExcluding(FieldsExcluding(attrs, exclude), exclude) == FieldsExcluding(attrs, exclude)
  {
  }

  /** What `AppJSONEncoder.default` produces for an object. */
  datatype Encoded =
    | AsDict(fields: map<string, Value>)
    | AsString(text: string)
      /** Handed to Flask's base encoder, which is not part of this model. */
    | ToBase(original: Value)

  /** `AppJSONEncoder.default`: models become dicts of their serialised
      attributes, decimals become their string form, anything else goes to
      the base encoder. */
  function Default(o: Value): (r: Encoded)
    ensures r.AsDict? <==> o.Model?
    ensures r.AsString? <==> o.Decimal?
    ensures o.Decimal? ==> r.text == o.text
    ensures !o.Model? && !o.Decimal? ==> r == ToBase(o)
    ensures o.Model? ==> r.fields.Keys <= o.attrs.Keys
    ensures o.Model? ==> forall k :: k in o.attrs ==>
      (k in r.fields <==> Serialised(k, ExcludedKeys(o.jsonExclude)))
    ensures o.Model? ==> forall k :: k in r.fields ==> r.fields[k] == o.attrs[k]
  {
    match o
    case Model(attrs, jsonExclude) =>
      if ExcludeGiven(jsonExclude) then AsDict(FieldsExcluding(attrs, jsonExclude.value))
      else AsDict(PublicFields(attrs))
    case Decimal(text) => AsString(text)
    case _ => ToBase(o)
  }

  /** The encoding of a model is a valid model state itself, and encoding it as
      a model (with the same exclusions) gives back the same fields. */
  lemma DefaultIdempotent(attrs: map<string, Value>, exclude: Option<seq<string>>)
    ensures Default(Model(Default(Model(attrs, exclude)).fields, exclude))
         == Default(Model(attrs, exclude))
  {
    if ExcludeGiven(exclude) {
      FieldsExcludingIdempotent(attrs, exclude.value);
    } else {
      PublicFieldsIsEmptyExclusion(attrs);
      PublicFieldsIsEmptyExclusion(PublicFields(attrs));
      FieldsExcludingIdempotent(attrs, []);
    }
  }

  /** The argument `jsonify` passes on for one positional argument. */
  function PrepareArg(o: Value): Value
  {
    if o.Model? then Dict(Default(o).fields) else o
  }

  /** `jsonify`'s argument mapping: top-level models become dicts, every other
      argument is passed on unchanged and in order. */
  method JsonifyArgs(args: seq<Value>) returns (out: seq<Value>)
    ensures |out| == |args|
    ensures forall i :: 0 <= i < |args| && args[i].Model? ==>
      out[i] == Dict(Default(args[i]).fields)
    ensures forall i :: 0 <= i < |args| && !args[i].Model? ==> out[i] == args[i]
  {
    out := [];
    var n := 0;
    while n < |args|
      invariant n <= |args|
      invariant |out| == n
      invariant forall i :: 0 <= i < n ==> out[i] == PrepareArg(args[i])
    {
      out := out + [PrepareArg(args[n])];
      n := n + 1;
    }
  }
}
