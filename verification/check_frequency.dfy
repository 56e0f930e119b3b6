/** `AssetsCheckFrequency`: when to check for updates, with the integer each
    constant carries and the name it is serialised under in JSON. */
module CheckFrequency {
  import opened Results

  datatype CheckFrequency = OnAppStart | OnAppResume | Manual

  /** `getValue`: the integer passed to the constant's constructor. */
  function Value(f: CheckFrequency): (v: int)
    ensures 0 <= v <= 2
    ensures f == OnAppStart <==> v == 0
    ensures f == OnAppResume <==> v == 1
    ensures f == Manual <==> v == 2
  {
    match f
    case OnAppStart => 0
    case OnAppResume => 1
    case Manual => 2
  }

  /** The decimal notation of a natural number. */
  function DecimalString(n: nat): (s: string)
    ensures |s| >= 1
    decreases n
  {
    var digit := ['0' + (n % 10) as char];
    if n < 10 then digit else DecimalString(n / 10) + digit
  }

  /** The `@SerializedName` of each constant. */
  function SerializedName(f: CheckFrequency): (name: string)
    ensures name == DecimalString(Value(f))
  {
    match f
    case OnAppStart => "0"
    case OnAppResume => "1"
    case Manual => "2"
  }

  /** The constant whose value is `v`, if any. */
  function FromValue(v: int): (r: Option<CheckFrequency>)
    ensures r.Some? <==> 0 <= v <= 2
    ensures r.Some? ==> Value(r.value) == v
  {
    if v == 0 then Some(OnAppStart)
    else if v == 1 then Some(OnAppResume)
    else if v == 2 then Some(Manual)
    else None
  }

  /** What JSON deserialisation yields for a serialised name: the constant
      carrying that name, or `null` for any other string. */
  function Deserialize(name: string): (r: Option<CheckFrequency>)
    ensures r.Some? ==> SerializedName(r.value) == name
    ensures r.None? ==> forall f :: SerializedName(f) != name
  {
    if name == "0" then Some(OnAppStart)
    else if name == "1" then Some(OnAppResume)
    else if name == "2" then Some(Manual)
    else None
  }

  /** Distinct constants carry distinct values. */
  lemma ValueInjective(f: CheckFrequency, g: CheckFrequency)
    ensures Value(f) == Value(g) ==> f == g
  {
  }

  /** Each value in 0..2 belongs to exactly one constant, and the lookup by value
      undoes `getValue`. */
  lemma ValueBijective(f: CheckFrequency, v: int)
    ensures FromValue(Value(f)) == Some(f)
    ensures 0 <= v <= 2 ==> exists g :: Value(g) == v
  {
    if 0 <= v <= 2 {
      assert Value(FromValue(v).value) == v;
    }
  }

  /** Deserialising a constant's serialised name yields the constant. */
  lemma SerializedNameRoundTrip(f: CheckFrequency)
    ensures Deserialize(SerializedName(f)) == Some(f)
  {
  }

  /** The serialised names are pairwise distinct. */
  lemma SerializedNameInjective(f: CheckFrequency, g: CheckFrequency)
    ensures SerializedName(f) == SerializedName(g) ==> f == g
  {
    SerializedNameRoundTrip(f);
    SerializedNameRoundTrip(g);
  }
}
