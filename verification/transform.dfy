/** `transform` (etl_script.py): every record is rebuilt field by field;
    `height` is converted from inches to metres and `weight` from pounds to
    kilograms, and every other field is copied. Python's `float(...)` on
    text is a parameter. Numbers are exact reals, so the multipliers are
    exactly 0.0254 and 0.453592. */
module Transformation {
  import opened Fallible
  import opened Records
  import opened Errors

  const InchesToMetres: real := 0.0254
  const PoundsToKilograms: real := 0.453592

  /** Python's `float(value)`: a number stays as it is, text goes through
      `parse`, and `None` raises. */
  function ToFloat(parse: string -> Option<real>, v: Value): Option<real> {
    match v
    case Number(x) => Some(x)
    case Text(s) => parse(s)
    case Null => None
  }

  /** The value one field takes in the transformed record. */
  function ConvertField(parse: string -> Option<real>, key: string, v: Value): Result<Value, Error> {
    if key == "height" then
      match ToFloat(parse, v)
      case Some(x) => Success(Number(x * InchesToMetres))
      case None => Failure(NotANumber(key, v))
    else if key == "weight" then
      match ToFloat(parse, v)
      case Some(x) => Success(Number(x * PoundsToKilograms))
      case None => Failure(NotANumber(key, v))
    else
      Success(v)
  }

  /** The field is not one the conversions look at. */
  predicate Untouched(key: string) {
    key != "height" && key != "weight"
  }

  /** Every field converts: the height and weight fields hold numbers. */
  predicate AllConvert(parse: string -> Option<real>, fs: seq<Field>) {
    forall i :: 0 <= i < |fs| ==> ConvertField(parse, fs[i].0, fs[i].1).Success?
  }

  /** The inner loop of `transform`, over `record.items()`: each field is
      converted where it stands; the first field that fails raises. */
  function ConvertFields(parse: string -> Option<real>, fs: seq<Field>): (res: Result<seq<Field>, Error>)
    ensures res.Success? ==> Keys(res.value) == Keys(fs)
    ensures res.Success? ==>
              forall i :: 0 <= i < |fs| ==> ConvertField(parse, fs[i].0, fs[i].1) == Success(res.value[i].1)
  {
    if fs == [] then Success([])
    else
      match ConvertField(parse, fs[0].0, fs[0].1)
      case Failure(e) => Failure(e)
      case Success(v) =>
        match ConvertFields(parse, fs[1..])
        case Failure(e) => Failure(e)
        case Success(rest) =>
          var out := [(fs[0].0, v)] + rest;
          assert out[1..] == rest;
          Success(out)
  }

  /** A record converts exactly when each of its fields does. */
  lemma {:induction false} ConvertFieldsSucceeds(parse: string -> Option<real>, fs: seq<Field>)
    ensures ConvertFields(parse, fs).Success? <==> AllConvert(parse, fs)
  {
    if fs != [] {
      ConvertFieldsSucceeds(parse, fs[1..]);
      if AllConvert(parse, fs) {
        assert forall i :: 0 <= i < |fs| - 1 ==> fs[1..][i] == fs[i + 1];
      }
    }
  }

  /** The error is that of the first field that fails to convert. */
  lemma {:induction false} ConvertFieldsFailsAt(parse: string -> Option<real>, fs: seq<Field>, j: int, e: Error)
    requires 0 <= j < |fs| && AllConvert(parse, fs[..j])
    requires ConvertField(parse, fs[j].0, fs[j].1) == Failure(e)
    ensures ConvertFields(parse, fs) == Failure(e)
  {
    if j > 0 {
      assert fs[..j][0] == fs[0];
      assert fs[1..][..j - 1] == fs[..j][1..];
      assert fs[1..][j - 1] == fs[j];
      ConvertFieldsFailsAt(parse, fs[1..], j - 1, e);
    }
  }

  /** One transformed record: the same keys in the same order. */
  function TransformRecord(parse: string -> Option<real>, r: Record): Result<Record, Error> {
    match ConvertFields(parse, r)
    case Success(fs) =>
      Success(fs)
    case Failure(e) => Failure(e)
  }

  /** Every record of the batch transforms. */
  predicate AllTransform(parse: string -> Option<real>, data: seq<Record>) {
    forall i :: 0 <= i < |data| ==> TransformRecord(parse, data[i]).Success?
  }

  /** The outer loop of `transform`: one output record per input record, in
      order; the first record that fails to transform raises. */
  function Transform(parse: string -> Option<real>, data: seq<Record>): (res: Result<seq<Record>, Error>)
    ensures res.Success? ==> |res.value| == |data|
    ensures res.Success? ==>
              forall i :: 0 <= i < |data| ==> TransformRecord(parse, data[i]) == Success(res.value[i])
  {
    if data == [] then Success([])
    else
      match TransformRecord(parse, data[0])
      case Failure(e) => Failure(e)
      case Success(r) =>
        match Transform(parse, data[1..])
        case Failure(e) => Failure(e)
        case Success(rest) =>
          var out := [r] + rest;
          assert out[1..] == rest;
          Success(out)
  }

  /** A batch transforms exactly when each of its records does. */
  lemma {:induction false} TransformSucceeds(parse: string -> Option<real>, data: seq<Record>)
    ensures Transform(parse, data).Success? <==> AllTransform(parse, data)
  {
    if data != [] {
      TransformSucceeds(parse, data[1..]);
      if AllTransform(parse, data) {
        assert forall i :: 0 <= i < |data| - 1 ==> data[1..][i] == data[i + 1];
      }
    }
  }

  /** The transform only ever fails because `float(...)` raised on a
      `height` or `weight` field. */
  lemma {:induction false} TransformErrorIsNumber(parse: string -> Option<real>, data: seq<Record>)
    ensures Transform(parse, data).Failure? ==>
              Transform(parse, data).error.NotANumber? && !Untouched(Transform(parse, data).error.key)
  {
    if data != [] {
      TransformErrorIsNumber(parse, data[1..]);
      ConvertFieldsErrorIsNumber(parse, data[0]);
    }
  }

  lemma {:induction false} ConvertFieldsErrorIsNumber(parse: string -> Option<real>, fs: seq<Field>)
    ensures ConvertFields(parse, fs).Failure? ==>
              ConvertFields(parse, fs).error.NotANumber? && !Untouched(ConvertFields(parse, fs).error.key)
  {
    if fs != [] {
      ConvertFieldsErrorIsNumber(parse, fs[1..]);
    }
  }

  /** Field names and their order survive the transform: no field is added
      or dropped. */
  lemma TransformKeepsKeys(parse: string -> Option<real>, data: seq<Record>)
    requires Transform(parse, data).Success?
    ensures forall i :: 0 <= i < |data| ==> Keys(Transform(parse, data).value[i]) == Keys(data[i])
  {
  }

  /** Field `j` of record `i` of a transformed batch: same name, converted
      value. */
  lemma TransformedAt(parse: string -> Option<real>, data: seq<Record>, i: int, j: int)
    requires Transform(parse, data).Success?
    requires 0 <= i < |data| && 0 <= j < |data[i]|
    ensures |Transform(parse, data).value[i]| == |data[i]|
    ensures Transform(parse, data).value[i][j].0 == data[i][j].0
    ensures ConvertField(parse, data[i][j].0, data[i][j].1) == Success(Transform(parse, data).value[i][j].1)
  {
  }

  /** A field other than `height` and `weight` keeps its value. */
  lemma TransformPassesThrough(parse: string -> Option<real>, data: seq<Record>, i: int, j: int)
    requires Transform(parse, data).Success?
    requires 0 <= i < |data| && 0 <= j < |data[i]| && Untouched(data[i][j].0)
    ensures Transform(parse, data).value[i][j] == data[i][j]
  {
  }

  /** A `height` field becomes its number times 0.0254 and a `weight` field
      its number times 0.453592; the field keeps its name and place. */
  lemma TransformConverts(parse: string -> Option<real>, data: seq<Record>, i: int, j: int)
    requires Transform(parse, data).Success?
    requires 0 <= i < |data| && 0 <= j < |data[i]| && !Untouched(data[i][j].0)
    ensures ToFloat(parse, data[i][j].1).Some?
    ensures Transform(parse, data).value[i][j].0 == data[i][j].0
    ensures data[i][j].0 == "height" ==>
              Transform(parse, data).value[i][j].1 == Number(ToFloat(parse, data[i][j].1).value * 0.0254)
    ensures data[i][j].0 == "weight" ==>
              Transform(parse, data).value[i][j].1 == Number(ToFloat(parse, data[i][j].1).value * 0.453592)
  {
    var f := data[i][j];
    var w := Transform(parse, data).value[i][j].1;
    TransformedAt(parse, data, i, j);
    assert ConvertField(parse, f.0, f.1) == Success(w);
    ConvertedNumber(parse, f.0, f.1, w);
  }

  lemma ConvertedNumber(parse: string -> Option<real>, key: string, v: Value, w: Value)
    requires !Untouched(key) && ConvertField(parse, key, v) == Success(w)
    ensures ToFloat(parse, v).Some?
    ensures w == Number(if key == "height" then ToFloat(parse, v).value * 0.0254 else ToFloat(parse, v).value * 0.453592)
  {
  }

  /** A `height` or `weight` value that is not a number makes the whole
      transform fail; the field is not skipped. */
  lemma TransformFailsOnNonNumber(parse: string -> Option<real>, data: seq<Record>, i: int, j: int)
    requires 0 <= i < |data| && 0 <= j < |data[i]| && !Untouched(data[i][j].0)
    requires ToFloat(parse, data[i][j].1).None?
    ensures Transform(parse, data).Failure?
  {
  }

  /** A record with neither `height` nor `weight` comes out equal to itself,
      and so does a batch of such records. */
  lemma {:induction false} TransformIdentity(parse: string -> Option<real>, data: seq<Record>)
    requires forall i, j :: 0 <= i < |data| && 0 <= j < |data[i]| ==> Untouched(data[i][j].0)
    ensures Transform(parse, data) == Success(data)
  {
    forall i | 0 <= i < |data| ensures TransformRecord(parse, data[i]) == Success(data[i]) {
      ConvertUntouched(parse, data[i]);
    }
    TransformSucceeds(parse, data);
    assert Transform(parse, data).value == data;
  }

  lemma {:induction false} ConvertUntouched(parse: string -> Option<real>, fs: seq<Field>)
    requires forall j :: 0 <= j < |fs| ==> Untouched(fs[j].0)
    ensures ConvertFields(parse, fs) == Success(fs)
  {
    if fs != [] {
      ConvertUntouched(parse, fs[1..]);
      assert [fs[0]] + fs[1..] == fs;
    }
  }

  /** Records are transformed independently of one another: transforming a
      concatenation transforms each part. */
  lemma {:induction false} TransformAppend(parse: string -> Option<real>, a: seq<Record>, b: seq<Record>)
    ensures Transform(parse, a + b).Success? <==> Transform(parse, a).Success? && Transform(parse, b).Success?
    ensures Transform(parse, a + b).Success? ==>
              Transform(parse, a + b).value == Transform(parse, a).value + Transform(parse, b).value
  {
    if a == [] {
      assert a + b == b;
    } else {
      assert (a + b)[1..] == a[1..] + b;
      TransformAppend(parse, a[1..], b);
      if Transform(parse, a + b).Success? {
        assert ([Transform(parse, a + b).value[0]] + Transform(parse, a[1..]).value) + Transform(parse, b).value
            == [Transform(parse, a + b).value[0]] + (Transform(parse, a[1..]).value + Transform(parse, b).value);
      }
    }
  }

  lemma ConvertSingle(parse: string -> Option<real>, k: string, v: Value)
    ensures ConvertFields(parse, [(k, v)]) ==
              match ConvertField(parse, k, v)
              case Success(w) => Success([(k, w)])
              case Failure(e) => Failure(e)
  {
    assert [(k, v)][1..] == [];
    assert ConvertFields(parse, [(k, v)][1..]) == Success([]);
    if ConvertField(parse, k, v).Success? {
      var w := ConvertField(parse, k, v).value;
      assert [(k, w)] + [] == [(k, w)];
    }
  }

  lemma TransformSingle(parse: string -> Option<real>, r: Record)
    ensures Transform(parse, [r]) ==
              match TransformRecord(parse, r)
              case Success(t) => Success([t])
              case Failure(e) => Failure(e)
  {
    assert [r][1..] == [];
    assert Transform(parse, [r][1..]) == Success([]);
    if TransformRecord(parse, r).Success? {
      var t := TransformRecord(parse, r).value;
      assert [t] + [] == [t];
    }
  }

  /** `{height: "10"}` becomes `{height: 0.254}` and `{weight: "2"}` becomes
      `{weight: 0.907184}` when the texts parse as 10 and 2. */
  lemma TransformExamples(parse: string -> Option<real>)
    requires parse("10") == Some(10.0) && parse("2") == Some(2.0)
    ensures Transform(parse, [[("height", Text("10"))]]) == Success([[("height", Number(0.254))]])
    ensures Transform(parse, [[("weight", Text("2"))]]) == Success([[("weight", Number(0.907184))]])
  {
    ConvertSingle(parse, "height", Text("10"));
    ConvertSingle(parse, "weight", Text("2"));
    TransformSingle(parse, [("height", Text("10"))]);
    TransformSingle(parse, [("weight", Text("2"))]);
  }

  /** The error of a failed transform is that of the first record that
      fails, whatever follows it. */
  lemma {:induction false} TransformFailsAt(parse: string -> Option<real>, data: seq<Record>, i: int, e: Error)
    requires 0 <= i < |data| && AllTransform(parse, data[..i])
    requires TransformRecord(parse, data[i]) == Failure(e)
    ensures Transform(parse, data) == Failure(e)
  {
    if i > 0 {
      assert data[..i][0] == data[0];
      assert data[1..][..i - 1] == data[..i][1..];
      assert data[1..][i - 1] == data[i];
      TransformFailsAt(parse, data[1..], i - 1, e);
    }
  }

  /** The loop of `transform`: append each transformed record in turn. */
  method TransformRecords(parse: string -> Option<real>, data: seq<Record>) returns (res: Result<seq<Record>, Error>)
    ensures res == Transform(parse, data)
  {
    var transformed: seq<Record> := [];
    var i := 0;
    while i < |data|
      invariant 0 <= i <= |data|
      invariant Transform(parse, data[..i]) == Success(transformed)
    {
      assert data[..i + 1] == data[..i] + [data[i]];
      TransformAppend(parse, data[..i], [data[i]]);
      TransformSingle(parse, data[i]);
      match TransformRecord(parse, data[i])
      case Failure(e) =>
        TransformFailsAt(parse, data, i, e);
        return Failure(e);
      case Success(r) =>
        transformed := transformed + [r];
      i := i + 1;
    }
    assert data[..i] == data;
    res := Success(transformed);
  }
}
