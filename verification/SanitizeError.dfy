/**
 * Truncating the heavy fields of a graph of error objects, in place.
 *
 * The graph has edges `error` and `cause`, may share objects and may be cyclic.
 */
module SanitizeError {
  import opened Common
  import opened Utils

  /** A field value.  An object is known by what inspect makes of it; None when inspect throws. */
  datatype Value = Undefined | Null | Str(s: string) | Primitive(n: int) | Object(id: int, inspected: Option<string>)

  function Decimal(n: nat): (s: string)
    ensures s != []
  {
    if n < 10 then ["0123456789"[n]] else Decimal(n / 10) + ["0123456789"[n % 10]]
  }

  const MARKER_START := "...[truncated, total length: "

  function Marker(length: nat): string {
    MARKER_START + Decimal(length) + "]"
  }

  function Cut(s: string, maxLength: nat): string {
    if |s| > maxLength then s[..maxLength] + Marker(|s|) else s
  }

  const UNSERIALIZABLE := "[unserializable]"

  function Truncate(value: Value, maxLength: nat): Value {
    match value
    case Str(s) => Str(Cut(s, maxLength))
    case Object(_, Some(inspected)) => if |inspected| <= maxLength then value else Str(Cut(inspected, maxLength))
    case Object(_, None) => Str(UNSERIALIZABLE)
    case _ => value
  }

  // ---------------------------------------------------------------- what truncating does to strings

  lemma {:induction false} DecimalIsInjective(a: nat, b: nat)
    requires Decimal(a) == Decimal(b)
    ensures a == b
    decreases a
  {
    var digits := "0123456789";
    assert forall i, j :: 0 <= i < 10 && 0 <= j < 10 && digits[i] == digits[j] ==> i == j;
    var x, y := Decimal(a), Decimal(b);
    assert x[|x| - 1] == digits[a % 10] && y[|y| - 1] == digits[b % 10];
    if a >= 10 && b >= 10 {
      assert x[..|x| - 1] == Decimal(a / 10) && y[..|y| - 1] == Decimal(b / 10);
      DecimalIsInjective(a / 10, b / 10);
    }
  }

  /** The number that a string of digits stands for. */
  function ValueOf(digits: string): nat
    requires forall i :: 0 <= i < |digits| ==> '0' <= digits[i] <= '9'
  {
    if digits == [] then 0
    else 10 * ValueOf(digits[..|digits| - 1]) + (digits[|digits| - 1] as int - '0' as int)
  }

  /** The printed number reads back, in digits only and without leading zeros. */
  lemma {:induction false} DecimalReadsBack(n: nat)
    ensures forall i :: 0 <= i < |Decimal(n)| ==> '0' <= Decimal(n)[i] <= '9'
    ensures ValueOf(Decimal(n)) == n
    ensures n > 0 ==> Decimal(n)[0] != '0'
    decreases n
  {
    var digits, last := "0123456789", Decimal(n)[|Decimal(n)| - 1];
    assert forall d :: 0 <= d < 10 ==> digits[d] as int == '0' as int + d;
    assert last == digits[n % 10];
    if n >= 10 {
      DecimalReadsBack(n / 10);
      assert Decimal(n)[..|Decimal(n)| - 1] == Decimal(n / 10);
    } else {
      assert Decimal(n)[..0] == [];
    }
  }

  lemma {:induction false} MarkerIsInjective(a: nat, b: nat)
    requires Marker(a) == Marker(b)
    ensures a == b
  {
    var x, y, m := Marker(a), Marker(b), |MARKER_START|;
    assert x[m..|x| - 1] == Decimal(a) && y[m..|y| - 1] == Decimal(b);
    DecimalIsInjective(a, b);
  }

  /** A cut string keeps its first maxLength characters and carries only the marker on top. */
  lemma CutIsBounded(s: string, maxLength: nat)
    ensures |Cut(s, maxLength)| <= maxLength + |Marker(|s|)|
    ensures Cut(s, maxLength)[..Min(|s|, maxLength)] == s[..Min(|s|, maxLength)]
  {
  }

  /** Nothing to cut, or by chance the cut string is as long as the original. */
  predicate CutForGood(s: string, maxLength: nat) {
    |s| <= maxLength || |s| == maxLength + |Marker(|s|)|
  }

  /** Cutting twice differs from cutting once everywhere else. */
  lemma {:induction false} CutTwiceExactly(s: string, maxLength: nat)
    ensures Cut(Cut(s, maxLength), maxLength) == Cut(s, maxLength)
            <==> CutForGood(s, maxLength)
  {
    if |s| > maxLength {
      var c := Cut(s, maxLength);
      assert c[..maxLength] == s[..maxLength] && c[maxLength..] == Marker(|s|);
      assert Cut(c, maxLength)[maxLength..] == Marker(|c|);
      if Cut(c, maxLength) == c {
        MarkerIsInjective(|c|, |s|);
      }
    }
  }

  /** A string of two characters, cut to none and then again, changes again. */
  lemma {:induction false} CutTwiceCanDiffer()
    ensures Cut(Cut("ab", 0), 0) != Cut("ab", 0)
  {
    assert |Marker(2)| > 2;
    CutTwiceExactly("ab", 0);
  }

  /** The field values that a second truncation leaves alone. */
  predicate TruncatedForGood(value: Value, maxLength: nat) {
    match value
    case Str(s) => CutForGood(s, maxLength)
    case Object(_, Some(inspected)) => CutForGood(inspected, maxLength)
    case Object(_, None) => maxLength >= 16
    case _ => true
  }

  /** The text cut after maxLength characters, with a note of how long it was. */
  predicate IsCutOf(text: string, maxLength: nat, after: Value) {
    && maxLength < |text|
    && after == Str(text[..maxLength] + "...[truncated, total length: " + Decimal(|text|) + "]")
  }

  /** What truncating may do to a value, case by case. */
  predicate IsTruncated(before: Value, maxLength: nat, after: Value) {
    match before
    case Undefined => after == before
    case Null => after == before
    case Primitive(_) => after == before
    case Str(s) => if |s| <= maxLength then after == before else IsCutOf(s, maxLength, after)
    case Object(_, Some(inspected)) =>
      if |inspected| <= maxLength then after == before else IsCutOf(inspected, maxLength, after)
    case Object(_, None) => after == Str("[unserializable]")
  }

  lemma {:induction false} TruncateMeans(value: Value, maxLength: nat)
    ensures IsTruncated(value, maxLength, Truncate(value, maxLength))
  {
    match value
    case Str(s) => CutMeans(s, maxLength);
    case Object(_, Some(inspected)) => CutMeans(inspected, maxLength);
    case _ =>
  }

  lemma {:induction false} CutMeans(s: string, maxLength: nat)
    ensures |s| <= maxLength ==> Cut(s, maxLength) == s
    ensures |s| > maxLength ==> IsCutOf(s, maxLength, Str(Cut(s, maxLength)))
  {
    if |s| > maxLength {
      assert Cut(s, maxLength) == s[..maxLength] + "...[truncated, total length: " + Decimal(|s|) + "]";
    }
  }

  /** The exact condition under which truncating twice is truncating once, for every value and limit. */
  lemma {:induction false} TruncateTwiceExactly(value: Value, maxLength: nat)
    ensures Truncate(Truncate(value, maxLength), maxLength) == Truncate(value, maxLength)
            <==> TruncatedForGood(value, maxLength)
  {
    match value
    case Str(s) =>
      CutTwiceExactly(s, maxLength);
    case Object(_, Some(inspected)) =>
      if |inspected| > maxLength {
        CutTwiceExactly(inspected, maxLength);
      }
    case Object(_, None) =>
      CutTwiceExactly(UNSERIALIZABLE, maxLength);
      assert |UNSERIALIZABLE| == 16 && |Marker(16)| > 16;
    case _ =>
  }

  // ---------------------------------------------------------------- error objects

  datatype HeavyField = Data | Body | RequestBody | ServerError

  const HEAVY_FIELDS := [Data, Body, RequestBody, ServerError]

  /** Writing to a read-only property throws, and so does touching one whose getter throws. */
  datatype Access = Writable | ReadOnly | Throwing

  datatype Field = Field(value: Value, access: Access)

  function SanitizedField(f: Field, maxLength: nat): Field {
    if f.access == Writable then f.(value := Truncate(f.value, maxLength)) else f
  }

  /** Each writable heavy field truncated once. */
  function Sanitized(fields: map<HeavyField, Field>, maxLength: nat): map<HeavyField, Field> {
    map f | f in fields :: SanitizedField(fields[f], maxLength)
  }

  /** The length that a value has as a string; an object that cannot be rendered has none. */
  function RenderedLength(value: Value): nat {
    match value
    case Str(s) => |s|
    case Object(_, Some(inspected)) => |inspected|
    case _ => 0
  }

  /** Every writable field that is a string afterwards is at most maxLength characters and a marker long. */
  predicate Bounded(before: map<HeavyField, Field>, after: map<HeavyField, Field>, maxLength: nat) {
    forall f :: f in after && f in before && after[f].access == Writable && after[f].value.Str? ==>
      |after[f].value.s| <= maxLength + |Marker(RenderedLength(before[f].value))|
  }

  /** The bound holds even for the fixed text in place of an unserializable object: it is shorter than any marker. */
  lemma {:induction false} SanitizedIsBounded(fields: map<HeavyField, Field>, maxLength: nat)
    ensures Bounded(fields, Sanitized(fields, maxLength), maxLength)
  {
    assert |Marker(0)| > |UNSERIALIZABLE|;
    forall f | f in fields && fields[f].access == Writable && Sanitized(fields, maxLength)[f].value.Str?
      ensures |Sanitized(fields, maxLength)[f].value.s| <= maxLength + |Marker(RenderedLength(fields[f].value))|
    {
      match fields[f].value
      case Str(s) => CutIsBounded(s, maxLength);
      case Object(_, Some(inspected)) => CutIsBounded(inspected, maxLength);
      case _ =>
    }
  }

  /** The writable fields truncated, every other one as it was, and none added or removed. */
  ghost predicate FieldsTruncated(before: map<HeavyField, Field>, maxLength: nat, after: map<HeavyField, Field>) {
    && after.Keys == before.Keys
    && forall f :: f in before ==>
         && after[f].access == before[f].access
         && (before[f].access != Writable ==> after[f] == before[f])
         && (before[f].access == Writable ==> IsTruncated(before[f].value, maxLength, after[f].value))
  }

  lemma {:induction false} SanitizedMeans(fields: map<HeavyField, Field>, maxLength: nat)
    ensures FieldsTruncated(fields, maxLength, Sanitized(fields, maxLength))
  {
    forall f | f in fields
      ensures IsTruncated(fields[f].value, maxLength, Truncate(fields[f].value, maxLength))
    {
      TruncateMeans(fields[f].value, maxLength);
    }
  }

  /** An error object; `error` and `cause` are null when absent, not an object, or throwing on access. */
  class ErrorObject {
    var fields: map<HeavyField, Field>
    var error: ErrorObject?
    var cause: ErrorObject?

    constructor (fields: map<HeavyField, Field>)
      ensures this.fields == fields && error == null && cause == null
    {
      this.fields := fields;
      error, cause := null, null;
    }

    method SanitizeFields(maxLength: nat)
      modifies this`fields
      ensures fields == Sanitized(old(fields), maxLength)
      ensures FieldsTruncated(old(fields), maxLength, fields)
    {
      for i := 0 to |HEAVY_FIELDS|
        invariant fields.Keys == old(fields).Keys
        invariant forall f :: f in fields ==>
                    fields[f] == if f in HEAVY_FIELDS[..i] then SanitizedField(old(fields)[f], maxLength) else old(fields)[f]
      {
        var field := HEAVY_FIELDS[i];
        if field in fields && fields[field].access == Writable && fields[field].value != Undefined {
          fields := fields[field := fields[field].(value := Truncate(fields[field].value, maxLength))];
        }
      }
      assert HEAVY_FIELDS[..|HEAVY_FIELDS|] == HEAVY_FIELDS;
      AllHeavyFields();
      SanitizedMeans(old(fields), maxLength);
    }
  }

  lemma AllHeavyFields()
    ensures forall f: HeavyField :: f in HEAVY_FIELDS
  {
    forall f: HeavyField
      ensures f in HEAVY_FIELDS
    {
      match f
      case Data => assert HEAVY_FIELDS[0] == f;
      case Body => assert HEAVY_FIELDS[1] == f;
      case RequestBody => assert HEAVY_FIELDS[2] == f;
      case ServerError => assert HEAVY_FIELDS[3] == f;
    }
  }

  /** All objects around: no edge leads out of the universe. */
  ghost predicate Closed(s: set<ErrorObject>, universe: set<ErrorObject>)
    requires s <= universe
    reads universe`error, universe`cause
  {
    forall o :: o in s ==> (o.error != null ==> o.error in universe) && (o.cause != null ==> o.cause in universe)
  }

  /** b is n edges away from a. */
  ghost predicate Reaches(a: ErrorObject, b: ErrorObject, n: nat, universe: set<ErrorObject>)
    reads universe`error, universe`cause
    decreases n
  {
    a in universe &&
    if n == 0 then a == b
    else
      || (a.error != null && Reaches(a.error, b, n - 1, universe))
      || (a.cause != null && Reaches(a.cause, b, n - 1, universe))
  }

  ghost predicate Reachable(a: ErrorObject, b: ErrorObject, universe: set<ErrorObject>)
    reads universe`error, universe`cause
  {
    exists n: nat :: Reaches(a, b, n, universe)
  }

  /** A set that every edge stays in holds everything reachable from its members. */
  lemma {:induction false} ClosedHoldsReachable(s: set<ErrorObject>, a: ErrorObject, b: ErrorObject, n: nat,
                                                universe: set<ErrorObject>)
    requires s <= universe && a in s && Reaches(a, b, n, universe)
    requires forall o :: o in s ==> (o.error != null ==> o.error in s) && (o.cause != null ==> o.cause in s)
    ensures b in s
    decreases n
  {
    if n > 0 {
      if a.error != null && Reaches(a.error, b, n - 1, universe) {
        ClosedHoldsReachable(s, a.error, b, n - 1, universe);
      } else {
        ClosedHoldsReachable(s, a.cause, b, n - 1, universe);
      }
    }
  }

  lemma ReachesOneMore(a: ErrorObject, via: ErrorObject, b: ErrorObject, universe: set<ErrorObject>)
    requires a in universe && (a.error == via || a.cause == via) && Reachable(via, b, universe)
    ensures Reachable(a, b, universe)
  {
    var n: nat :| Reaches(via, b, n, universe);
    assert Reaches(a, b, n + 1, universe);
  }

  /** Objects visited by a call: those added to the seen set. */
  method SanitizeFrom(root: ErrorObject, maxLength: nat, seen: set<ErrorObject>, ghost universe: set<ErrorObject>)
    returns (seen': set<ErrorObject>)
    requires root in universe && seen <= universe && Closed(universe, universe)
    modifies (universe - seen)`fields
    ensures seen + {root} <= seen' <= universe
    ensures forall o :: o in seen' - seen ==> o.fields == Sanitized(old(o.fields), maxLength)
    ensures forall o :: o in universe - (seen' - seen) ==> o.fields == old(o.fields)
    ensures forall o :: o in seen' - seen ==> (o.error != null ==> o.error in seen') && (o.cause != null ==> o.cause in seen')
    ensures forall o :: o in seen' - seen ==> Reachable(root, o, universe)
    decreases universe - seen
  {
    seen' := seen;
    if root in seen {
      return;
    }
    seen' := seen + {root};
    root.SanitizeFields(maxLength);
    assert Reaches(root, root, 0, universe);
    if root.error != null {
      ghost var before := seen';
      seen' := SanitizeFrom(root.error, maxLength, seen', universe);
      forall o | o in seen' - before
        ensures Reachable(root, o, universe)
      {
        ReachesOneMore(root, root.error, o, universe);
      }
    }
    if root.cause != null {
      ghost var before := seen';
      seen' := SanitizeFrom(root.cause, maxLength, seen', universe);
      forall o | o in seen' - before
        ensures Reachable(root, o, universe)
      {
        ReachesOneMore(root, root.cause, o, universe);
      }
    }
  }

  /**
   * Every object reachable from the error has each writable heavy field truncated exactly once, and
   * no other object changes.  A value that is not an object is left alone.
   */
  method SanitizeErrorInPlace(error: ErrorObject?, maxLength: nat, ghost universe: set<ErrorObject>)
    requires error != null ==> error in universe
    requires Closed(universe, universe)
    modifies universe`fields
    ensures forall o :: o in universe && error != null && Reachable(error, o, universe) ==>
              o.fields == Sanitized(old(o.fields), maxLength) && Bounded(old(o.fields), o.fields, maxLength)
    ensures forall o :: o in universe && error != null && Reachable(error, o, universe) ==>
              FieldsTruncated(old(o.fields), maxLength, o.fields)
    ensures forall o :: o in universe && (error == null || !Reachable(error, o, universe)) ==> o.fields == old(o.fields)
  {
    if error != null {
      var seen := SanitizeFrom(error, maxLength, {}, universe);
      forall o | o in universe && Reachable(error, o, universe)
        ensures o in seen
      {
        var n: nat :| Reaches(error, o, n, universe);
        ClosedHoldsReachable(seen, error, o, n, universe);
      }
      forall o | o in seen
        ensures Bounded(old(o.fields), o.fields, maxLength) && FieldsTruncated(old(o.fields), maxLength, o.fields)
      {
        SanitizedIsBounded(old(o.fields), maxLength);
        SanitizedMeans(old(o.fields), maxLength);
      }
    }
  }
}
