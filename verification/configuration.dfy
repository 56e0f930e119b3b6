/** `AssetsConfiguration`: a record of optional strings whose setters reject
    `null`, except the one for the package hash. */
module AssetsConfiguration {
  import opened Results

  /** The fields whose setter rejects `null`. */
  datatype Field = AppName | BaseDirectory | AppVersion | ClientUniqueId | DeploymentKey | ServerUrl

  /** The configuration object; every field is a nullable Java `String`. */
  datatype Configuration = Configuration(
    appVersion: Option<string>,
    clientUniqueId: Option<string>,
    deploymentKey: Option<string>,
    serverUrl: Option<string>,
    packageHash: Option<string>,
    appName: Option<string>,
    baseDirectory: Option<string>)

  /** `AssetsIllegalArgumentException(className, argument)`. */
  datatype IllegalArgument = IllegalArgument(className: string, argument: string)

  /** What `this.getClass().getName()` yields for the configuration class itself. */
  const ClassName: string := "com.microsoft.appcenter.assets.AssetsConfiguration"

  /** The argument name a rejecting setter reports. */
  function FieldName(f: Field): string {
    match f
    case AppName => "appName"
    case BaseDirectory => "baseDirectory"
    case AppVersion => "appVersion"
    case ClientUniqueId => "clientUniqueId"
    case DeploymentKey => "deploymentKey"
    case ServerUrl => "serverUrl"
  }

  /** The getter of a field. */
  function Get(c: Configuration, f: Field): Option<string> {
    match f
    case AppName => c.appName
    case BaseDirectory => c.baseDirectory
    case AppVersion => c.appVersion
    case ClientUniqueId => c.clientUniqueId
    case DeploymentKey => c.deploymentKey
    case ServerUrl => c.serverUrl
  }

  /** A setter call on a configuration object: `receiver` is the object as the
      call leaves it, `returned` is what the call returns (the object itself,
      for chaining) or the exception it throws. */
  datatype Call = Call(receiver: Configuration, returned: Result<Configuration, IllegalArgument>)

  /** `new AssetsConfiguration()`: no field has an initialiser. */
  function NewConfiguration(): (c: Configuration)
    ensures forall f :: Get(c, f).None?
    ensures c.packageHash.None?
  {
    Configuration(None, None, None, None, None, None, None)
  }

  /** The six validating setters: a non-null value replaces the field and the
      object is returned; `null` throws an illegal-argument exception naming the
      field, before anything is assigned. */
  function Set(c: Configuration, f: Field, v: Option<string>): (r: Call)
    ensures r.returned.Failure? <==> v.None?
    ensures r.returned.Success? ==> r.returned.value == r.receiver
    ensures v.None? ==> r.receiver == c && r.returned.error == IllegalArgument(ClassName, FieldName(f))
    ensures v.Some? ==> Get(r.receiver, f) == v
    ensures forall g :: g != f ==> Get(r.receiver, g) == Get(c, g)
    ensures r.receiver.packageHash == c.packageHash
  {
    if v.None? then
      Call(c, Failure(IllegalArgument(ClassName, FieldName(f))))
    else
      var s := v.value;
      var updated :=
        match f
        case AppName => c.(appName := Some(s))
        case BaseDirectory => c.(baseDirectory := Some(s))
        case AppVersion => c.(appVersion := Some(s))
        case ClientUniqueId => c.(clientUniqueId := Some(s))
        case DeploymentKey => c.(deploymentKey := Some(s))
        case ServerUrl => c.(serverUrl := Some(s));
      Call(updated, Success(updated))
  }

  /** `setPackageHash`: stores any value, `null` included, and never throws. */
  function SetPackageHash(c: Configuration, v: Option<string>): (r: Call)
    ensures r.returned == Success(r.receiver)
    ensures r.receiver.packageHash == v
    ensures forall f :: Get(r.receiver, f) == Get(c, f)
  {
    var updated := c.(packageHash := v);
    Call(updated, Success(updated))
  }

  /** Calling a setter on what the previous call returned, as in
      `config.setAppName(a).setServerUrl(b)`; an exception ends the chain. */
  function Then(previous: Call, f: Field, v: Option<string>): Call {
    match previous.returned
    case Failure(_) => previous
    case Success(c) => Set(c, f, v)
  }

  /** A chain of two successful setters on different fields leaves both values
      readable and the other fields as they were. */
  lemma ChainedSetters(c: Configuration, f: Field, v: string, g: Field, w: string)
    requires f != g
    ensures var r := Then(Set(c, f, Some(v)), g, Some(w));
      && r.returned == Success(r.receiver)
      && Get(r.receiver, f) == Some(v)
      && Get(r.receiver, g) == Some(w)
      && (forall h :: h != f && h != g ==> Get(r.receiver, h) == Get(c, h))
      && r.receiver.packageHash == c.packageHash
  {
  }

  /** A `null` anywhere in a chain stops it: the object keeps the state the
      earlier setters gave it. */
  lemma ChainStopsAtNull(c: Configuration, f: Field, v: string, g: Field)
    ensures var first := Set(c, f, Some(v));
      var r := Then(first, g, None);
      r.returned.Failure? && r.receiver == first.receiver
  {
  }

  /** Setters of different fields commute. */
  lemma SettersCommute(c: Configuration, f: Field, v: Option<string>, g: Field, w: Option<string>)
    requires f != g
    ensures Set(Set(c, f, v).receiver, g, w).receiver == Set(Set(c, g, w).receiver, f, v).receiver
  {
  }

  /** A second successful set of the same field overrides the first. */
  lemma LastSetWins(c: Configuration, f: Field, v: Option<string>, w: string)
    ensures Set(Set(c, f, v).receiver, f, Some(w)).receiver == Set(c, f, Some(w)).receiver
  {
  }
}
