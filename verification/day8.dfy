/** Day 8: an image sent as layers of 25 x 6 digits. `layers` cuts the data
    into layers, `flatten` stacks them (0 black and 1 white are opaque,
    anything else transparent, the first layer in front), and the checksum
    reads the layer with the fewest zeros. */
module Day8 {
  import opened Wrappers
  import opened Extrema

  /** Pixels per layer: 25 wide, 6 high. */
  const LayerSize: nat := 25 * 6

  /** The concatenation of the layers, in order. */
  function Concat(ls: seq<seq<int>>): seq<int>
  {
    if ls == [] then [] else Concat(ls[..|ls| - 1]) + ls[|ls| - 1]
  }

  /** `layers`: consecutive chunks of 150 values; a remainder fails the
      source's `assert_eq!` (None). */
  function Layers(data: seq<int>): (r: Option<seq<seq<int>>>)
    ensures r.None? <==> |data| % LayerSize != 0
    ensures r.Some? ==> |r.value| == |data| / LayerSize
    ensures r.Some? ==> forall i :: 0 <= i < |r.value| ==> |r.value[i]| == LayerSize
  {
    if |data| % LayerSize != 0 then None
    else Some(seq(|data| / LayerSize, i requires 0 <= i < |data| / LayerSize =>
                  data[LayerSize * i..LayerSize * i + LayerSize]))
  }

  /** Cutting into layers loses nothing: the layers put back together are
      the data. */
  lemma LayersConcat(data: seq<int>)
    requires |data| % LayerSize == 0
    ensures Concat(Layers(data).value) == data
  {
    var ls := Layers(data).value;
    ConcatPrefix(data, ls, |ls|);
    assert ls[..|ls|] == ls;
  }

  lemma {:induction false} ConcatPrefix(data: seq<int>, ls: seq<seq<int>>, k: nat)
    requires |data| % LayerSize == 0 && ls == Layers(data).value && k <= |ls|
    ensures |data| == LayerSize * |ls|
    ensures Concat(ls[..k]) == data[..LayerSize * k]
  {
    if k > 0 {
      ConcatPrefix(data, ls, k - 1);
      assert ls[..k][..k - 1] == ls[..k - 1];
      assert data[..LayerSize * k] == data[..LayerSize * (k - 1)] + ls[k - 1];
    }
  }

  /** A pixel is opaque when it is black (0) or white (1). */
  predicate Opaque(p: int)
  {
    p == 0 || p == 1
  }

  /** The pixel at `idx` seen through layers `k`, `k + 1`, …: the first
      opaque one, or black (0) when all are transparent. */
  function Seen(data: seq<seq<int>>, k: nat, idx: nat): (p: int)
    requires k <= |data| && forall j :: k <= j < |data| ==> idx < |data[j]|
    ensures Opaque(p)
    decreases |data| - k
  {
    if k == |data| then 0
    else if Opaque(data[k][idx]) then data[k][idx]
    else Seen(data, k + 1, idx)
  }

  /** The pixel seen is that of the lowest-index layer that is opaque
      there. */
  lemma {:induction false} SeenIsFrontmost(data: seq<seq<int>>, k: nat, idx: nat, j: nat)
    requires k <= j < |data| && forall i :: k <= i < |data| ==> idx < |data[i]|
    requires Opaque(data[j][idx]) && forall i :: k <= i < j ==> !Opaque(data[i][idx])
    ensures Seen(data, k, idx) == data[j][idx]
    decreases j - k
  {
    if k < j {
      SeenIsFrontmost(data, k + 1, idx, j);
    }
  }

  /** When no layer is opaque there, the pixel seen is black. */
  lemma {:induction false} SeenAllTransparent(data: seq<seq<int>>, k: nat, idx: nat)
    requires k <= |data| && forall i :: k <= i < |data| ==> idx < |data[i]|
    requires forall i :: k <= i < |data| ==> !Opaque(data[i][idx])
    ensures Seen(data, k, idx) == 0
    decreases |data| - k
  {
    if k < |data| {
      SeenAllTransparent(data, k + 1, idx);
    }
  }

  /** The image seen through all layers. */
  function Image(data: seq<seq<int>>): (img: seq<int>)
    requires forall j :: 0 <= j < |data| ==> LayerSize <= |data[j]|
    ensures |img| == LayerSize
    ensures forall i :: 0 <= i < LayerSize ==> Opaque(img[i])
  {
    seq(LayerSize, i requires 0 <= i < LayerSize => Seen(data, 0, i))
  }

  /** `flatten`: for each pixel, walk the layers from the back, letting each
      opaque pixel cover what was there. A layer shorter than 150 makes the
      source's indexing panic (None). */
  method Flatten(data: seq<seq<int>>) returns (r: Option<seq<int>>)
    ensures r.None? <==> exists j :: 0 <= j < |data| && |data[j]| < LayerSize
    ensures r.Some? ==> r.value == Image(data)
  {
    var result: seq<int> := [];
    for pixelIdx := 0 to LayerSize
      invariant |result| == pixelIdx
      invariant forall j :: 0 <= j < |data| ==> pixelIdx <= |data[j]|
      invariant forall i :: 0 <= i < pixelIdx ==> result[i] == Seen(data, 0, i)
    {
      var pixel := 0;
      var k := |data|;
      while k > 0
        invariant 0 <= k <= |data|
        invariant forall j :: k <= j < |data| ==> pixelIdx < |data[j]|
        invariant pixel == Seen(data, k, pixelIdx)
      {
        k := k - 1;
        if |data[k]| <= pixelIdx {
          return None;
        }
        var imagePixel := data[k][pixelIdx];
        if imagePixel == 0 {
          pixel := 0;
        } else if imagePixel == 1 {
          pixel := 1;
        }
      }
      result := result + [pixel];
    }
    return Some(result);
  }

  /** How many times `v` occurs in `layer`. */
  function Count(layer: seq<int>, v: int): (n: nat)
    ensures n == multiset(layer)[v]
  {
    if layer == [] then 0
    else
      assert layer == layer[..|layer| - 1] + [layer[|layer| - 1]];
      Count(layer[..|layer| - 1], v) + (if layer[|layer| - 1] == v then 1 else 0)
  }

  /** The number of zeros in a layer, the key of `min_by_key`. */
  function Zeros(layer: seq<int>): nat
  {
    Count(layer, 0)
  }

  /** `min_by_key` on the zero count: the first layer with the fewest
      zeros. */
  function FewestZeros(ls: seq<seq<int>>): (m: nat)
    requires ls != []
    ensures m < |ls|
    ensures forall j :: 0 <= j < |ls| ==> Zeros(ls[m]) <= Zeros(ls[j])
    ensures forall j :: 0 <= j < m ==> Zeros(ls[j]) > Zeros(ls[m])
  {
    var key: seq<int> -> int := l => Zeros(l);
    var m := ArgMin(ls, key);
    assert forall j :: 0 <= j < |ls| ==> key(ls[j]) == Zeros(ls[j]);
    m
  }

  /** The checksum: ones times twos in the layer with the fewest zeros (the
      first such layer); no layers at all fails the source's `unwrap`. */
  function Checksum(ls: seq<seq<int>>): (r: Option<nat>)
    ensures r.None? <==> ls == []
    ensures r.Some? ==>
              exists m :: && 0 <= m < |ls|
                          && (forall j :: 0 <= j < |ls| ==> Zeros(ls[m]) <= Zeros(ls[j]))
                          && (forall j :: 0 <= j < m ==> Zeros(ls[j]) > Zeros(ls[m]))
                          && r.value == Count(ls[m], 1) * Count(ls[m], 2)
  {
    if ls == [] then None
    else
      var m := FewestZeros(ls);
      Some(Count(ls[m], 1) * Count(ls[m], 2))
  }
}
