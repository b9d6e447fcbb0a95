/** `getLoginHistory` of `src/auth/auth.service.ts`: the status of each listed sign-in, computed and never stored. */
module LoginHistory {
  import opened Wrappers
  import opened SessionData

  datatype Status = Active | SignedOut | Expired

  predicate IsOpen(row: SignIn) { row.logoutAt.None? }

  /** The row is open and no newer listed row of its device is. */
  ghost predicate NewestOpenOfItsDevice(records: seq<SignIn>, i: nat)
    requires i < |records|
  {
    IsOpen(records[i]) && forall j | 0 <= j < i :: !(IsOpen(records[j]) && records[j].device == records[i].device)
  }

  /** How many of the first `n` rows are open and carry no device. */
  function OpenDeviceless(records: seq<SignIn>, n: nat): nat
    requires n <= |records|
  {
    if n == 0 then 0
    else OpenDeviceless(records, n - 1) + if IsOpen(records[n - 1]) && records[n - 1].device.None? then 1 else 0
  }

  function DevicelessSessions(live: seq<Token>): nat {
    if live == [] then 0 else DevicelessSessions(live[1..]) + if live[0].device.None? then 1 else 0
  }

  function DevicesOf(live: seq<Token>): set<DeviceId> {
    set t | t in live && t.device.Some? :: t.device.value
  }

  function ActiveCount(statuses: seq<Status>): nat {
    if statuses == [] then 0
    else ActiveCount(statuses[..|statuses| - 1]) + if statuses[|statuses| - 1].Active? then 1 else 0
  }

  lemma {:induction false} NoMoreClaimsThanSessions(live: seq<Token>)
    ensures |DevicesOf(live)| + DevicelessSessions(live) <= |live|
  {
    if live != [] {
      NoMoreClaimsThanSessions(live[1..]);
      assert live == [live[0]] + live[1..];
      assert DevicesOf(live)
          == DevicesOf(live[1..]) + if live[0].device.Some? then {live[0].device.value} else {};
    }
  }

  /** Some live session accounts for row `i`. A session seen on a device accounts for that device's latest open row and
      for no other; the `deviceless` ones account for the latest `deviceless` open rows that name no device. */
  ghost predicate Vouched(records: seq<SignIn>, devices: set<DeviceId>, deviceless: nat, i: nat)
    requires i < |records|
  {
    && IsOpen(records[i])
    && match records[i].device
       case Some(d) => d in devices && NewestOpenOfItsDevice(records, i)
       case None => OpenDeviceless(records, i) < deviceless
  }

  /** The devices whose live session no row among the first `n` has claimed. */
  ghost predicate Unclaimed(records: seq<SignIn>, devices: set<DeviceId>, n: nat, unclaimed: set<DeviceId>)
    requires n <= |records|
  {
    forall d :: d in unclaimed
                <==> d in devices && forall j | 0 <= j < n :: !(IsOpen(records[j]) && records[j].device == Some(d))
  }

  lemma ClaimDevice(records: seq<SignIn>, devices: set<DeviceId>, n: nat, unclaimed: set<DeviceId>)
    requires n < |records| && IsOpen(records[n]) && records[n].device.Some?
    requires Unclaimed(records, devices, n, unclaimed)
    ensures records[n].device.value in unclaimed <==> Vouched(records, devices, 0, n)
    ensures Unclaimed(records, devices, n + 1, unclaimed - {records[n].device.value})
  {
  }

  lemma ClaimNothing(records: seq<SignIn>, devices: set<DeviceId>, n: nat, unclaimed: set<DeviceId>)
    requires n < |records| && !(IsOpen(records[n]) && records[n].device.Some?)
    requires Unclaimed(records, devices, n, unclaimed)
    ensures Unclaimed(records, devices, n + 1, unclaimed)
  {
  }

  /** `claimLiveSession` on the open row `n`: takes one of the sessions left, if one can vouch for the row. */
  method ClaimLiveSession(
    records: seq<SignIn>, devices: set<DeviceId>, deviceless: nat, n: nat, unclaimed: set<DeviceId>,
    unclaimedDeviceless: nat)
    returns (claimed: bool, unclaimed': set<DeviceId>, unclaimedDeviceless': nat)
    requires n < |records| && IsOpen(records[n])
    requires Unclaimed(records, devices, n, unclaimed)
    requires unclaimedDeviceless == Minus(deviceless, OpenDeviceless(records, n))
    ensures claimed <==> Vouched(records, devices, deviceless, n)
    ensures Unclaimed(records, devices, n + 1, unclaimed')
    ensures unclaimedDeviceless' == Minus(deviceless, OpenDeviceless(records, n + 1))
    ensures |unclaimed'| + unclaimedDeviceless' + (if claimed then 1 else 0) == |unclaimed| + unclaimedDeviceless
  {
    unclaimed', unclaimedDeviceless' := unclaimed, unclaimedDeviceless;
    if records[n].device.Some? {
      ClaimDevice(records, devices, n, unclaimed);
      claimed := records[n].device.value in unclaimed;
      unclaimed' := unclaimed - {records[n].device.value};
    } else {
      ClaimNothing(records, devices, n, unclaimed);
      claimed := unclaimedDeviceless != 0;
      if claimed {
        unclaimedDeviceless' := unclaimedDeviceless - 1;
      }
    }
  }

  function Minus(a: nat, b: nat): nat { if b < a then a - b else 0 }

  /** A row is signed out exactly when it was closed and active exactly when a live session vouches for it. */
  ghost predicate StatusRight(records: seq<SignIn>, devices: set<DeviceId>, deviceless: nat, i: nat, status: Status)
    requires i < |records|
  {
    && (status.SignedOut? <==> !IsOpen(records[i]))
    && (status.Active? <==> Vouched(records, devices, deviceless, i))
  }

  /** Every status is right, and active rows never outnumber live sessions. */
  method StatusesOf(records: seq<SignIn>, live: seq<Token>) returns (statuses: seq<Status>)
    ensures |statuses| == |records|
    ensures forall i | 0 <= i < |records| ::
              StatusRight(records, DevicesOf(live), DevicelessSessions(live), i, statuses[i])
    ensures ActiveCount(statuses) <= |live|
  {
    var devices, deviceless := DevicesOf(live), DevicelessSessions(live);
    var unclaimed, unclaimedDeviceless := devices, deviceless;
    statuses := [];
    for i := 0 to |records|
      invariant |statuses| == i
      invariant Unclaimed(records, devices, i, unclaimed)
      invariant unclaimedDeviceless == Minus(deviceless, OpenDeviceless(records, i))
      invariant forall k | 0 <= k < i :: StatusRight(records, devices, deviceless, k, statuses[k])
      invariant ActiveCount(statuses) + |unclaimed| + unclaimedDeviceless == |devices| + deviceless
    {
      var status := SignedOut;
      if records[i].logoutAt.Some? {
        ClaimNothing(records, devices, i, unclaimed);
      } else {
        var claimed;
        claimed, unclaimed, unclaimedDeviceless :=
          ClaimLiveSession(records, devices, deviceless, i, unclaimed, unclaimedDeviceless);
        status := if claimed then Active else Expired;
      }
      assert StatusRight(records, devices, deviceless, i, status);
      ActiveCountAppend(statuses, status);
      statuses := statuses + [status];
    }
    NoMoreClaimsThanSessions(live);
  }

  lemma ActiveCountAppend(statuses: seq<Status>, status: Status)
    ensures ActiveCount(statuses + [status]) == ActiveCount(statuses) + if status.Active? then 1 else 0
  {
    assert (statuses + [status])[..|statuses|] == statuses;
  }
}
