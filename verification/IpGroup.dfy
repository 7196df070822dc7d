/** The group of an address: an IPv4 address by itself, an IPv6 address by its first 64 bits. */
module IpGroup {
  import opened Prelude
  import opened Fields

  type u16 = x: int | 0 <= x < 0x1_0000

  type Segments = s: seq<u16> | |s| == 8 witness [0, 0, 0, 0, 0, 0, 0, 0]

  type Octets = s: seq<byte> | |s| == 4 witness [0, 0, 0, 0]

  datatype IpAddr = V4(octets: Octets) | V6(segments: Segments)

  function Printed(numbers: seq<nat>, base: nat): (parts: seq<string>)
    requires Base(base)
    ensures |parts| == |numbers|
    ensures forall p <- parts :: '.' !in p && ':' !in p
  {
    seq(|numbers|, i requires 0 <= i < |numbers| => Digits(numbers[i], base))
  }

  function GetIpGroup(ip: IpAddr): string {
    match ip
    case V4(octets) => Join(Printed(octets, 10), '.')
    case V6(segments) => Join(Printed(segments[..4], 16), ':')
  }

  lemma PrintedInjective(a: seq<nat>, b: seq<nat>, base: nat)
    requires Base(base) && Printed(a, base) == Printed(b, base)
    ensures a == b
  {
    assert |a| == |b|;
    forall i | 0 <= i < |a| ensures a[i] == b[i] {
      assert Printed(a, base)[i] == Printed(b, base)[i];
      DigitsInjective(a[i], b[i], base);
    }
  }

  lemma JoinedInjective(a: seq<nat>, b: seq<nat>, base: nat, sep: char)
    requires Base(base) && |a| == |b| > 0 && (sep == '.' || sep == ':')
    requires Join(Printed(a, base), sep) == Join(Printed(b, base), sep)
    ensures a == b
  {
    SplitJoin(Printed(a, base), sep);
    SplitJoin(Printed(b, base), sep);
    PrintedInjective(a, b, base);
  }

  lemma FormatsDiffer(a: seq<nat>, b: seq<nat>)
    requires |a| > 1 && |b| > 0
    ensures Join(Printed(a, 10), '.') != Join(Printed(b, 16), ':')
  {
    var parts := Printed(a, 10);
    var s := parts[0] + ['.'] + Join(parts[1..], '.');
    assert s[|parts[0]|] == '.';
    NoDots(Printed(b, 16));
  }

  lemma {:induction false} NoDots(parts: seq<string>)
    requires parts != [] && forall p <- parts :: '.' !in p
    ensures '.' !in Join(parts, ':')
  {
    if |parts| > 1 {
      NoDots(parts[1..]);
    }
  }

  /** Two addresses share a group exactly when they are the same IPv4 address, or IPv6 with the same first four segments. */
  lemma SameGroup(a: IpAddr, b: IpAddr)
    ensures GetIpGroup(a) == GetIpGroup(b)
       <==> (a.V4? && b.V4? && a.octets == b.octets) || (a.V6? && b.V6? && a.segments[..4] == b.segments[..4])
  {
    if GetIpGroup(a) == GetIpGroup(b) {
      match (a, b) {
        case (V4(x), V4(y)) => JoinedInjective(x, y, 10, '.');
        case (V6(x), V6(y)) => JoinedInjective(x[..4], y[..4], 16, ':');
        case (V4(x), V6(y)) => FormatsDiffer(x, y[..4]);
        case (V6(x), V4(y)) => FormatsDiffer(y, x[..4]);
      }
    }
  }

  /** The group of an IPv4 address is its four octets in decimal, that of an IPv6 address its first four segments in hexadecimal. */
  lemma GroupFields(ip: IpAddr)
    ensures match ip
            case V4(octets) =>
              var parts := Split(GetIpGroup(ip), '.');
              |parts| == 4 && forall i :: 0 <= i < 4 ==> Denoted(parts[i], 10) == octets[i]
            case V6(segments) =>
              var parts := Split(GetIpGroup(ip), ':');
              |parts| == 4 && forall i :: 0 <= i < 4 ==> Denoted(parts[i], 16) == segments[i]
  {
    match ip {
      case V4(octets) =>
        SplitJoin(Printed(octets, 10), '.');
        forall i | 0 <= i < 4 ensures Denoted(Printed(octets, 10)[i], 10) == octets[i] {
          DigitsDenote(octets[i], 10);
        }
      case V6(segments) =>
        SplitJoin(Printed(segments[..4], 16), ':');
        forall i | 0 <= i < 4 ensures Denoted(Printed(segments[..4], 16)[i], 16) == segments[i] {
          DigitsDenote(segments[i], 16);
        }
    }
  }
}
