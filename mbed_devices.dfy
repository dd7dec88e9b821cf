/**
 * The device table of the mbed test scripts (Test/Scripts/mbed.py): the
 * MbedDeviceManager hands out the boards mbed_lstools lists, one test at a
 * time per board, and is_valid_ip checks the shape of an address.
 *
 * The listing itself (mbed_lstools.create().list_mbeds()) is the
 * constructor's parameter; the messages printed are not modelled.
 */
module MbedDevices {
  import opened Wrappers

  /** One entry of mbed_list, with the Available flag the manager adds to it. */
  datatype Device = Device(platformName: string, mountPoint: string, serialPort: string, available: bool)

  predicate Free(d: Device, platform: string) {
    d.platformName == platform && d.available
  }

  /** The first available entry of the platform. */
  function FirstAvailable(ds: seq<Device>, platform: string): (r: Option<nat>)
    ensures r.Some? ==> r.value < |ds| && Free(ds[r.value], platform)
    ensures r.Some? ==> forall j :: 0 <= j < r.value ==> !Free(ds[j], platform)
    ensures r.None? ==> forall j :: 0 <= j < |ds| ==> !Free(ds[j], platform)
  {
    if ds == [] then None
    else if Free(ds[0], platform) then Some(0)
    else match FirstAvailable(ds[1..], platform)
      case None => None
      case Some(i) => Some(i + 1)
  }

  /** The table once entry i is in use, and once it is released. */
  function Claimed(ds: seq<Device>, i: nat): (r: seq<Device>)
    requires i < |ds|
  {
    ds[i := ds[i].(available := false)]
  }

  function Released(ds: seq<Device>, i: nat): (r: seq<Device>)
    requires i < |ds|
  {
    ds[i := ds[i].(available := true)]
  }

  /** Python's list[index]: a negative index counts from the end; any other raises IndexError. */
  function PyIndex(index: int, n: nat): (r: Option<nat>)
    ensures r.None? <==> index >= n || index + n < 0
    ensures r.Some? ==> r.value < n && (if index >= 0 then r.value == index else r.value == n + index)
  {
    if 0 <= index < n then Some(index)
    else if index < 0 && index + n >= 0 then Some(n + index)
    else None
  }

  /** Releasing the entry get_device handed out gives back the table it started from. */
  lemma GetThenFreeRestores(ds: seq<Device>, platform: string)
    requires FirstAvailable(ds, platform).Some?
    ensures var i := FirstAvailable(ds, platform).value;
            Released(Claimed(ds, i), i) == ds
  {
    var i := FirstAvailable(ds, platform).value;
    assert Released(Claimed(ds, i), i)[i] == ds[i];
  }

  /** An entry in use is not handed out again: the next request gets a later entry, or none. */
  lemma ClaimedNotHandedOutAgain(ds: seq<Device>, platform: string)
    requires FirstAvailable(ds, platform).Some?
    ensures var i := FirstAvailable(ds, platform).value;
            var next := FirstAvailable(Claimed(ds, i), platform);
            next.None? || next.value > i
  {
  }

  class DeviceManager {
    /** mbed_list */
    var devices: seq<Device>

    /** MbedDeviceManager.__init__: every listed board starts out Available. */
    constructor (listed: seq<Device>)
      ensures |devices| == |listed|
      ensures forall i :: 0 <= i < |listed| ==> devices[i] == listed[i].(available := true)
    {
      var ds := listed;
      var i := 0;
      while i < |ds|
        invariant 0 <= i <= |ds| && |ds| == |listed|
        invariant forall j :: 0 <= j < i ==> ds[j] == listed[j].(available := true)
        invariant forall j :: i <= j < |ds| ==> ds[j] == listed[j]
      {
        ds := ds[i := ds[i].(available := true)];
        i := i + 1;
      }
      devices := ds;
    }

    /**
     * get_device: the index, mount point and serial port of the first
     * available board of the platform, which is then in use; (-1, None,
     * None) and no change when there is none.
     */
    method GetDevice(platformType: string) returns (index: int, mountPoint: Option<string>, serialPort: Option<string>)
      modifies this
      ensures var found := FirstAvailable(old(devices), platformType);
              && (found.Some? ==>
                    index == found.value && mountPoint == Some(old(devices)[found.value].mountPoint)
                    && serialPort == Some(old(devices)[found.value].serialPort)
                    && devices == Claimed(old(devices), found.value))
              && (found.None? ==>
                    index == -1 && mountPoint == None && serialPort == None && devices == old(devices))
    {
      index, mountPoint, serialPort := -1, None, None;
      var idx := 0;
      while idx < |devices|
        invariant 0 <= idx <= |devices| && devices == old(devices)
        invariant forall j :: 0 <= j < idx ==> !Free(devices[j], platformType)
      {
        var dev := devices[idx];
        if dev.platformName == platformType && dev.available {
          mountPoint := Some(dev.mountPoint);
          serialPort := Some(dev.serialPort);
          devices := devices[idx := dev.(available := false)];
          return idx, mountPoint, serialPort;
        }
        idx := idx + 1;
      }
    }

    /**
     * free_device: the board at a Python index is available again. The
     * result says whether it was in use; an index out of range raises.
     */
    method FreeDevice(index: int) returns (r: Result<bool, string>)
      modifies this
      ensures PyIndex(index, |old(devices)|).None? ==> r == Err("list index out of range") && devices == old(devices)
      ensures PyIndex(index, |old(devices)|).Some? ==>
                var i := PyIndex(index, |old(devices)|).value;
                r == Ok(!old(devices)[i].available) && devices == Released(old(devices), i)
      ensures PyIndex(index, |old(devices)|).Some? && old(devices)[PyIndex(index, |old(devices)|).value].available ==>
                devices == old(devices)
    {
      var i := PyIndex(index, |devices|);
      if i.None? {
        return Err("list index out of range");
      }
      var dev := devices[i.value];
      if !dev.available {
        devices := devices[i.value := dev.(available := true)];
        r := Ok(true);
      } else {
        assert Released(devices, i.value) == devices;
        r := Ok(false);
      }
    }
  }

  // ---------------------------------------------------------------------
  // is_valid_ip
  // ---------------------------------------------------------------------

  /** \d: the script runs under Python 2, where it is an ASCII digit. */
  predicate IsDigit(c: char) {
    '0' <= c <= '9'
  }

  predicate DigitGroup(g: string) {
    1 <= |g| <= 3 && forall k :: 0 <= k < |g| ==> IsDigit(g[k])
  }

  /** Dots at i, j and k, and four groups between them, the last running up to e. */
  predicate QuadAt(t: string, i: nat, j: nat, k: nat, e: nat) {
    i < j < k < e <= |t| && t[i] == '.' && t[j] == '.' && t[k] == '.'
    && DigitGroup(t[..i]) && DigitGroup(t[i + 1..j]) && DigitGroup(t[j + 1..k]) && DigitGroup(t[k + 1..e])
  }

  /** Four groups of one to three digits with a dot between each two. */
  predicate DottedQuad(t: string) {
    exists i: nat, j: nat, k: nat | i < j < k < |t| :: QuadAt(t, i, j, k, |t|)
  }

  /** The end of the run of digits starting at i. */
  function DigitsEnd(s: string, i: nat): (j: nat)
    requires i <= |s|
    ensures i <= j <= |s| && (j < |s| ==> !IsDigit(s[j]))
    ensures forall k :: i <= k < j ==> IsDigit(s[k])
    decreases |s| - i
  {
    if i == |s| || !IsDigit(s[i]) then i else DigitsEnd(s, i + 1)
  }

  lemma {:induction false} DigitsEndAt(s: string, a: nat, b: nat)
    requires a <= b <= |s| && (b < |s| ==> !IsDigit(s[b]))
    requires forall k :: a <= k < b ==> IsDigit(s[k])
    ensures DigitsEnd(s, a) == b
    decreases b - a
  {
    if a < b {
      DigitsEndAt(s, a + 1, b);
    }
  }

  /** `\d{1,3}\.` at i: the index after the dot. */
  function GroupThenDot(s: string, i: nat): (r: Option<nat>)
    requires i <= |s|
    ensures r.Some? ==> i < r.value <= |s| && s[r.value - 1] == '.' && DigitGroup(s[i..r.value - 1])
  {
    var e := DigitsEnd(s, i);
    if 1 <= e - i <= 3 && e < |s| && s[e] == '.' then Some(e + 1) else None
  }

  /**
   * is_valid_ip: re.match of `^\d{1,3}\.\d{1,3}\.\d{1,3}\.\d{1,3}$`. A
   * run of digits is followed by a dot or the end, so each group takes the
   * whole run; `$` also matches before a newline that ends the string.
   */
  function IsValidIp(ip: string): (r: bool)
    ensures r ==> 7 <= |ip| <= 16 && IsDigit(ip[0]) && (IsDigit(ip[|ip| - 1]) || ip[|ip| - 1] == '\n')
  {
    match GroupThenDot(ip, 0)
    case None => false
    case Some(a) =>
      match GroupThenDot(ip, a)
      case None => false
      case Some(b) =>
        match GroupThenDot(ip, b)
        case None => false
        case Some(c) =>
          var e := DigitsEnd(ip, c);
          1 <= e - c <= 3 && (e == |ip| || (e == |ip| - 1 && ip[e] == '\n'))
  }

  /** A group of digits ending at a dot or a newline is the whole run of digits. */
  lemma GroupAt(s: string, i: nat, d: nat)
    requires i < d < |s| && (s[d] == '.' || s[d] == '\n') && DigitGroup(s[i..d])
    ensures DigitsEnd(s, i) == d
  {
    assert forall k :: i <= k < d ==> s[k] == s[i..d][k - i];
    DigitsEndAt(s, i, d);
  }

  lemma GroupThenDotAt(s: string, i: nat, d: nat)
    requires i < d < |s| && s[d] == '.' && DigitGroup(s[i..d])
    ensures GroupThenDot(s, i) == Some(d + 1)
  {
    GroupAt(s, i, d);
  }

  lemma GroupToEnd(s: string, i: nat)
    requires i < |s| && DigitGroup(s[i..])
    ensures DigitsEnd(s, i) == |s|
  {
    assert forall k :: i <= k < |s| ==> s[k] == s[i..][k - i];
    DigitsEndAt(s, i, |s|);
  }

  /** Four groups ending at e are four groups of the text cut at e. */
  lemma QuadPrefix(s: string, i: nat, j: nat, k: nat, e: nat)
    requires QuadAt(s, i, j, k, e)
    ensures QuadAt(s[..e], i, j, k, e)
  {
    var t := s[..e];
    assert t[..i] == s[..i];
    assert t[i + 1..j] == s[i + 1..j];
    assert t[j + 1..k] == s[j + 1..k];
    assert t[k + 1..e] == s[k + 1..e];
  }

  /** The digits from i up to the end of their run form one group when there are one to three. */
  lemma RunIsGroup(s: string, i: nat)
    requires i <= |s| && 1 <= DigitsEnd(s, i) - i <= 3
    ensures DigitGroup(s[i..DigitsEnd(s, i)])
  {
    var e := DigitsEnd(s, i);
    assert forall k :: i <= k < e ==> s[i..e][k - i] == s[k];
  }

  /** The dots the scan of is_valid_ip passes, and where its last group ends. */
  lemma ScanQuad(ip: string) returns (i: nat, j: nat, k: nat, e: nat)
    requires IsValidIp(ip)
    ensures QuadAt(ip, i, j, k, e) && (e == |ip| || (e == |ip| - 1 && ip[e] == '\n'))
  {
    var a := GroupThenDot(ip, 0).value;
    var b := GroupThenDot(ip, a).value;
    var c := GroupThenDot(ip, b).value;
    i, j, k, e := a - 1, b - 1, c - 1, DigitsEnd(ip, c);
    RunIsGroup(ip, c);
    assert ip[..i] == ip[0..i];
  }

  /** What is_valid_ip accepts is four groups, optionally followed by one newline. */
  lemma IsValidIpSound(ip: string)
    requires IsValidIp(ip)
    ensures DottedQuad(ip) || (|ip| > 0 && ip[|ip| - 1] == '\n' && DottedQuad(ip[..|ip| - 1]))
  {
    var i, j, k, e := ScanQuad(ip);
    QuadPrefix(ip, i, j, k, e);
    var t := ip[..e];
    assert QuadAt(t, i, j, k, |t|);
    if e == |ip| {
      assert t == ip;
    }
  }

  /** The three dots the scan of four groups finds. */
  lemma ScanFindsDots(ip: string, i: nat, j: nat, k: nat, e: nat)
    requires QuadAt(ip, i, j, k, e) && (e < |ip| ==> ip[e] == '\n')
    ensures GroupThenDot(ip, 0) == Some(i + 1) && GroupThenDot(ip, i + 1) == Some(j + 1)
    ensures GroupThenDot(ip, j + 1) == Some(k + 1) && DigitsEnd(ip, k + 1) == e
  {
    assert ip[0..i] == ip[..i];
    GroupThenDotAt(ip, 0, i);
    GroupThenDotAt(ip, i + 1, j);
    GroupThenDotAt(ip, j + 1, k);
    if e < |ip| {
      GroupAt(ip, k + 1, e);
    } else {
      assert ip[k + 1..e] == ip[k + 1..];
      GroupToEnd(ip, k + 1);
    }
  }

  lemma ScanAccepts(ip: string, i: nat, j: nat, k: nat, e: nat)
    requires QuadAt(ip, i, j, k, e) && (e < |ip| ==> e == |ip| - 1 && ip[e] == '\n')
    ensures IsValidIp(ip)
  {
    ScanFindsDots(ip, i, j, k, e);
  }

  /** Four groups are accepted. */
  lemma QuadAccepted(ip: string)
    requires DottedQuad(ip)
    ensures IsValidIp(ip)
  {
    var i: nat, j: nat, k: nat :| i < j < k < |ip| && QuadAt(ip, i, j, k, |ip|);
    ScanAccepts(ip, i, j, k, |ip|);
  }

  /** Four groups followed by one newline are accepted. */
  lemma QuadNewlineAccepted(ip: string)
    requires |ip| > 0 && ip[|ip| - 1] == '\n' && DottedQuad(ip[..|ip| - 1])
    ensures IsValidIp(ip)
  {
    var t := ip[..|ip| - 1];
    var i: nat, j: nat, k: nat :| i < j < k < |t| && QuadAt(t, i, j, k, |t|);
    assert ip[..i] == t[..i] && ip[i + 1..j] == t[i + 1..j] && ip[j + 1..k] == t[j + 1..k];
    assert ip[k + 1..|ip| - 1] == t[k + 1..|t|];
    ScanAccepts(ip, i, j, k, |ip| - 1);
  }

  /**
   * is_valid_ip accepts exactly four dot-separated groups of one to three
   * digits, optionally followed by one newline.
   */
  lemma IsValidIpCorrect(ip: string)
    ensures IsValidIp(ip) <==>
              DottedQuad(ip) || (|ip| > 0 && ip[|ip| - 1] == '\n' && DottedQuad(ip[..|ip| - 1]))
  {
    if IsValidIp(ip) {
      IsValidIpSound(ip);
    } else if DottedQuad(ip) {
      QuadAccepted(ip);
    } else if |ip| > 0 && ip[|ip| - 1] == '\n' && DottedQuad(ip[..|ip| - 1]) {
      QuadNewlineAccepted(ip);
    }
  }

  function Join(a: string, b: string, c: string, d: string): string {
    a + "." + b + "." + c + "." + d
  }

  lemma JoinQuad(a: string, b: string, c: string, d: string, tail: string)
    requires DigitGroup(a) && DigitGroup(b) && DigitGroup(c) && DigitGroup(d)
    ensures var s := Join(a, b, c, d) + tail;
            QuadAt(s, |a|, |a| + 1 + |b|, |a| + 2 + |b| + |c|, |a| + 3 + |b| + |c| + |d|)
  {
    var s := Join(a, b, c, d) + tail;
    var i, j, k := |a|, |a| + 1 + |b|, |a| + 2 + |b| + |c|;
    assert s[..i] == a;
    assert s[i + 1..j] == b;
    assert s[j + 1..k] == c;
    assert s[k + 1..k + 1 + |d|] == d;
  }

  /** Any four groups joined by dots are accepted. */
  lemma JoinedGroupsAccepted(a: string, b: string, c: string, d: string)
    requires DigitGroup(a) && DigitGroup(b) && DigitGroup(c) && DigitGroup(d)
    ensures IsValidIp(Join(a, b, c, d))
  {
    JoinQuad(a, b, c, d, "");
    assert Join(a, b, c, d) + "" == Join(a, b, c, d);
    ScanAccepts(Join(a, b, c, d), |a|, |a| + 1 + |b|, |a| + 2 + |b| + |c|, |a| + 3 + |b| + |c| + |d|);
  }

  /** So are they with one newline after them. */
  lemma JoinedGroupsNewlineAccepted(a: string, b: string, c: string, d: string)
    requires DigitGroup(a) && DigitGroup(b) && DigitGroup(c) && DigitGroup(d)
    ensures IsValidIp(Join(a, b, c, d) + "\n")
  {
    var s := Join(a, b, c, d) + "\n";
    var e := |a| + 3 + |b| + |c| + |d|;
    JoinQuad(a, b, c, d, "\n");
    assert |s| == e + 1 && s[e] == '\n';
    ScanAccepts(s, |a|, |a| + 1 + |b|, |a| + 2 + |b| + |c|, e);
  }

  /** The groups are not range-checked: 999.999.999.999 passes. */
  lemma NoRangeCheck()
    ensures IsValidIp("999.999.999.999")
  {
    var g := "999";
    assert DigitGroup(g);
    JoinedGroupsAccepted(g, g, g, g);
    assert Join(g, g, g, g) == "999.999.999.999";
  }

  /** Four digits in a group are refused. */
  lemma FourDigitGroupRefused()
    ensures !IsValidIp("1234.1.1.1")
  {
    DigitsEndAt("1234.1.1.1", 0, 4);
  }
}
