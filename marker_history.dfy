/**
 * The map layers drawn for a device's history, newest reading first: a marker for the latest
 * reading, an accuracy circle for every earlier one, and a line through the earlier ones.
 */
module MarkerHistory {

  import opened Wrappers
  import opened TrackerReading

  /** The factor that turns a one-sigma horizontal error into a 95% radius. */
  const R95Factor: real := 1.732

  /** The user equivalent range error, in metres, every circle is drawn with. */
  const Uere: real := 7.0

  /** The 95% horizontal accuracy radius, in metres, for a horizontal dilution of precision. */
  function HorizR95(hdop: real, uere: real): real {
    R95Factor * hdop * uere
  }

  /**
   * The radius is never negative for non-negative inputs, grows linearly with the dilution,
   * and is 12.124 m for a dilution of 1 at the range error the map uses.
   */
  lemma HorizR95Properties(hdop: real, other: real, uere: real, k: real)
    ensures hdop >= 0.0 && uere >= 0.0 ==> HorizR95(hdop, uere) >= 0.0
    ensures HorizR95(hdop + other, uere) == HorizR95(hdop, uere) + HorizR95(other, uere)
    ensures HorizR95(k * hdop, uere) == k * HorizR95(hdop, uere)
    ensures HorizR95(1.0, Uere) == 12.124
  {
    assert R95Factor * (k * hdop) * uere == k * (R95Factor * hdop * uere);
    assert R95Factor * (hdop + other) * uere == R95Factor * hdop * uere + R95Factor * other * uere;
    if hdop >= 0.0 && uere >= 0.0 {
      assert R95Factor * hdop >= 0.0;
    }
  }

  /** A point on the map. */
  datatype LatLng = LatLng(lat: real, lng: real)

  datatype Circle = Circle(center: LatLng, radius: real, reading: SerializedReading)

  datatype Layers = Layers(
    latest: Option<SerializedReading>,
    circles: seq<Circle>,
    positions: seq<LatLng>,
    polyline: bool
  )

  function LatLngOf(r: SerializedReading): LatLng {
    LatLng(r.reading.latitude, r.reading.longitude)
  }

  function CircleOf(r: SerializedReading): Circle {
    Circle(LatLngOf(r), HorizR95(r.reading.hdop, Uere), r)
  }

  /** The readings after the newest one. */
  function History(data: seq<SerializedReading>): (h: seq<SerializedReading>)
    ensures |h| == if |data| == 0 then 0 else |data| - 1
  {
    if data == [] then [] else data[1..]
  }

  /** The layers for a history, newest first, as the map draws them. */
  function MarkerLayers(data: seq<SerializedReading>): Layers {
    var history := History(data);
    var positions := seq(|history|, i requires 0 <= i < |history| => LatLngOf(history[i]));
    Layers(
      if data == [] then None else Some(data[0]),
      seq(|history|, i requires 0 <= i < |history| => CircleOf(history[i])),
      positions,
      |positions| > 1)
  }

  /** The latest marker and the circles together are the history, in order, once each. */
  lemma LayersSplit(data: seq<SerializedReading>)
    ensures var l := MarkerLayers(data);
      && (data == [] <==> l.latest.None?)
      && (l.latest.Some? ==> [l.latest.value] + History(data) == data)
      && |l.circles| == |History(data)|
      && (forall i :: 0 <= i < |l.circles| ==> l.circles[i].reading == data[i + 1])
  {
    if data != [] {
      assert [data[0]] + data[1..] == data;
    }
  }

  /**
   * One point per earlier reading, in the same order and never the latest one; every circle is
   * centred on its point with the radius of its own dilution.
   */
  lemma PositionsOfHistory(data: seq<SerializedReading>)
    ensures var l := MarkerLayers(data);
      && |l.positions| == |l.circles|
      && (forall i :: 0 <= i < |l.positions| ==>
            l.positions[i] == LatLng(data[i + 1].reading.latitude, data[i + 1].reading.longitude))
      && (forall i :: 0 <= i < |l.circles| ==>
            l.circles[i].center == l.positions[i] &&
            l.circles[i].radius == HorizR95(data[i + 1].reading.hdop, 7.0))
  {
  }

  /** The line is drawn exactly when there are at least two earlier readings. */
  lemma PolylineIff(data: seq<SerializedReading>)
    ensures MarkerLayers(data).polyline <==> |data| >= 3
  {
  }
}
