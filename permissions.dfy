/**
  The mobile permission check: a request is let through only when its `Token`
  header names a registered device, which is then attached to the request.
 */
module MobilePermission {
  import opened Strings
  import opened Values
  import opened ExceptionHandler

  /** A registered device and its access token. */
  datatype Device = Device(id: nat, deviceToken: string)

  /** The devices whose token is `token`, in table order. */
  function WithToken(devices: seq<Device>, token: string): (r: seq<Device>)
    ensures |r| <= |devices|
    ensures forall d :: d in r <==> d in devices && d.deviceToken == token
    ensures (forall d :: d in devices ==> d.deviceToken != token) ==> r == []
    decreases |devices|
  {
    if |devices| == 0 then []
    else (if devices[0].deviceToken == token then [devices[0]] else []) + WithToken(devices[1..], token)
  }

  /**
    `Device.objects.get(device_token=token)`: the one device with that token;
    `DoesNotExist` when there is none, `MultipleObjectsReturned` when there are
    several.
   */
  datatype Lookup = Found(device: Device) | DoesNotExist | MultipleObjectsReturned(count: nat)

  /** Two different devices carry `token`. */
  predicate SharedToken(devices: seq<Device>, token: string)
  {
    exists i, k :: 0 <= i < k < |devices| && devices[i].deviceToken == token && devices[k].deviceToken == token
  }

  /** Several devices match exactly when two different positions carry the token. */
  lemma WithTokenSeveral(devices: seq<Device>, token: string)
    ensures |WithToken(devices, token)| >= 2 <==> SharedToken(devices, token)
  {
    if |WithToken(devices, token)| >= 2 {
      SeveralShareToken(devices, token);
    }
    if SharedToken(devices, token) {
      SharedTokenSeveral(devices, token);
    }
  }

  lemma SomeWithToken(devices: seq<Device>, token: string)
    requires |WithToken(devices, token)| >= 1
    ensures exists k :: 0 <= k < |devices| && devices[k].deviceToken == token
  {
    var d := WithToken(devices, token)[0];
    assert d in WithToken(devices, token);
  }

  lemma WithTokenCons(devices: seq<Device>, token: string)
    requires |devices| > 0
    ensures |WithToken(devices, token)| ==
      (if devices[0].deviceToken == token then 1 else 0) + |WithToken(devices[1..], token)|
  {
  }

  lemma HeadShares(devices: seq<Device>, token: string)
    requires |devices| > 0 && devices[0].deviceToken == token && |WithToken(devices[1..], token)| >= 1
    ensures SharedToken(devices, token)
  {
    var rest := devices[1..];
    SomeWithToken(rest, token);
    var k :| 0 <= k < |rest| && rest[k].deviceToken == token;
    assert devices[k + 1] == rest[k];
  }

  lemma ShiftShared(devices: seq<Device>, token: string)
    requires |devices| > 0 && SharedToken(devices[1..], token)
    ensures SharedToken(devices, token)
  {
    var rest := devices[1..];
    var i, k :| 0 <= i < k < |rest| && rest[i].deviceToken == token && rest[k].deviceToken == token;
    assert devices[i + 1] == rest[i] && devices[k + 1] == rest[k];
  }

  lemma {:induction false} SeveralShareToken(devices: seq<Device>, token: string)
    requires |WithToken(devices, token)| >= 2
    ensures SharedToken(devices, token)
    decreases |devices|
  {
    WithTokenCons(devices, token);
    if devices[0].deviceToken == token {
      HeadShares(devices, token);
    } else {
      SeveralShareToken(devices[1..], token);
      ShiftShared(devices, token);
    }
  }

  lemma {:induction false} SharedTokenSeveral(devices: seq<Device>, token: string)
    requires SharedToken(devices, token)
    ensures |WithToken(devices, token)| >= 2
    decreases |devices|
  {
    var rest := devices[1..];
    var i, k :| 0 <= i < k < |devices| && devices[i].deviceToken == token && devices[k].deviceToken == token;
    assert rest[k - 1] == devices[k];
    if i == 0 {
      assert rest[k - 1] in WithToken(rest, token);
    } else {
      assert rest[i - 1] == devices[i];
      SharedTokenSeveral(rest, token);
    }
  }

  function GetDevice(devices: seq<Device>, token: string): (r: Lookup)
    ensures r.Found? ==> r.device in devices && r.device.deviceToken == token
    ensures r.DoesNotExist? <==> forall d :: d in devices ==> d.deviceToken != token
    ensures r.MultipleObjectsReturned? <==> SharedToken(devices, token)
    ensures r.MultipleObjectsReturned? ==> r.count >= 2
  {
    WithTokenSeveral(devices, token);
    var m := WithToken(devices, token);
    if |m| == 0 then DoesNotExist
    else if |m| == 1 then
      assert m[0] in m;
      Found(m[0])
    else
      assert m[0] in m;
      MultipleObjectsReturned(|m|)
  }

  /** Two devices sharing a token: the lookup fails, and the permission is refused. */
  lemma DuplicateTokenRefused()
    ensures GetDevice([Device(1, "t"), Device(2, "t")], "t") == MultipleObjectsReturned(2)
    ensures Denial(Some("t"), [Device(1, "t"), Device(2, "t")]).Some?
  {
    var devices := [Device(1, "t"), Device(2, "t")];
    assert devices[0].deviceToken == "t" && devices[1].deviceToken == "t";
    assert WithToken(devices, "t") == devices;
  }

  /** With unique tokens, a registered token finds exactly its device. */
  lemma GetDeviceUnique(devices: seq<Device>, i: nat)
    requires i < |devices|
    requires forall j, k :: 0 <= j < k < |devices| ==> devices[j].deviceToken != devices[k].deviceToken
    ensures GetDevice(devices, devices[i].deviceToken) == Found(devices[i])
  {
    UniqueWithToken(devices, i);
  }

  lemma {:induction false} UniqueWithToken(devices: seq<Device>, i: nat)
    requires i < |devices|
    requires forall j, k :: 0 <= j < k < |devices| ==> devices[j].deviceToken != devices[k].deviceToken
    ensures WithToken(devices, devices[i].deviceToken) == [devices[i]]
    decreases |devices|
  {
    var t := devices[i].deviceToken;
    if i == 0 {
      assert forall d :: d in devices[1..] ==> d.deviceToken != t by {
        forall d | d in devices[1..]
          ensures d.deviceToken != t
        {
          var k :| 0 <= k < |devices[1..]| && devices[1..][k] == d;
          assert devices[k + 1] == d;
        }
      }
    } else {
      UniqueWithToken(devices[1..], i - 1);
      assert devices[0].deviceToken != t;
    }
  }

  /** The parts of a request the check reads and writes. */
  class Request {
    const headers: map<string, string>
    var device: Option<Device>

    constructor (headers: map<string, string>)
      ensures this.headers == headers && device.None?
    {
      this.headers := headers;
      device := None;
    }

    /** `request.headers.get('Token')`. */
    function Token(): Option<string>
    {
      if "Token" in headers then Some(headers["Token"]) else None
    }
  }

  /**
    The text of Django's `MultipleObjectsReturned` from `get()`: it fetches at
    most 21 rows, so 21 matches or more read "more than 20".
   */
  function MultipleMessage(count: nat): (m: string)
    ensures count < 21 ==> m == "get() returned more than one Device -- it returned " + NatToString(count) + "!"
    ensures count >= 21 ==> m == "get() returned more than one Device -- it returned more than 20!"
  {
    "get() returned more than one Device -- it returned " + (if count < 21 then NatToString(count) else "more than 20") + "!"
  }

  /** The outcome of the check when it raises: the exception, otherwise the boolean it returns. */
  function Denial(lookupToken: Option<string>, devices: seq<Device>): (r: Option<Exc>)
    ensures lookupToken.None? || lookupToken == Some("") ==> r == Some(CustomException("TOKEN_IS_NOT_PROVIDED", map[]))
    ensures lookupToken.Some? && lookupToken.value != "" ==>
      (r == Some(CustomException("INVALID_TOKEN", map[])) <==> GetDevice(devices, lookupToken.value).DoesNotExist?)
    ensures r.None? <==> lookupToken.Some? && GetDevice(devices, lookupToken.value).Found? && lookupToken.value != ""
  {
    if lookupToken.None? || lookupToken.value == "" then Some(CustomException("TOKEN_IS_NOT_PROVIDED", map[]))
    else
      match GetDevice(devices, lookupToken.value)
      case Found(_) => None
      case DoesNotExist => Some(CustomException("INVALID_TOKEN", map[]))
      case MultipleObjectsReturned(n) =>
        Some(Raised("MultipleObjectsReturned", MultipleMessage(n), {}))
  }

  /**
    `IsMobileUser.has_permission`: raises (returned here as `Err`) or attaches
    the device and grants; it never answers false.
   */
  method HasPermission(request: Request, devices: seq<Device>) returns (r: Result<bool, Exc>)
    modifies request
    ensures Denial(request.Token(), devices).Some? ==>
      r == Err(Denial(request.Token(), devices).value) && request.device == old(request.device)
    ensures Denial(request.Token(), devices).None? ==>
      r == Ok(true) && request.device == Some(GetDevice(devices, request.Token().value).device)
    ensures r.Ok? ==> r.value
  {
    var token := request.Token();
    if token.None? || token.value == "" {
      return Err(CustomException("TOKEN_IS_NOT_PROVIDED", map[]));
    }
    var found := GetDevice(devices, token.value);
    match found
    case DoesNotExist =>
      return Err(CustomException("INVALID_TOKEN", map[]));
    case MultipleObjectsReturned(n) =>
      return Err(Raised("MultipleObjectsReturned", MultipleMessage(n), {}));
    case Found(d) =>
      request.device := Some(d);
      return Ok(true);
  }

  /**
    What the client sees for a refused request: the exception handler answers
    with the check's own message key.
   */
  lemma DenialResponse(token: Option<string>, devices: seq<Device>, context: map<string, string>)
    requires token.None? || token == Some("") || GetDevice(devices, token.value).DoesNotExist?
    ensures Denial(token, devices).Some?
    ensures Dispatch(Denial(token, devices).value, context).messageKey ==
      if token.None? || token == Some("") then "TOKEN_IS_NOT_PROVIDED" else "INVALID_TOKEN"
  {
  }
}
