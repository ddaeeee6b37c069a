/** The line-item codec of backend/models/Order.js: an order keeps its lines as
    two comma-joined strings, titles and quantities, paired by position. This
    module holds the pure half of Order.js: the order id generator, the
    encoding written by createOrder and parseOrderItems, which reads it back. */
module LineItems {
  import opened Common

  datatype LineItem = LineItem(title: string, quantity: int)

  /** One base-36 digit as `toString(36)` writes it, then upper-cased. */
  function Base36Upper(d: int): (c: char)
    requires 0 <= d < 36
    ensures IsOrderIdChar(c)
  {
    if d < 10 then (d + '0' as int) as char else (d - 10 + 'A' as int) as char
  }

  predicate IsOrderIdChar(c: char) { '0' <= c <= '9' || 'A' <= c <= 'Z' }

  /** generateOrderId: `Math.random().toString(36).substr(2, 6).toUpperCase()`.
      The random number is a parameter, given as the base-36 digits that
      toString(36) writes after "0."; there may be fewer than six of them. */
  function GenerateOrderId(fraction: seq<int>): (id: string)
    requires forall k :: 0 <= k < |fraction| ==> 0 <= fraction[k] < 36
    ensures |id| <= 6 && |id| == Min(6, |fraction|)
    ensures forall k :: 0 <= k < |id| ==> IsOrderIdChar(id[k])
  {
    seq(Min(6, |fraction|), k requires 0 <= k < Min(6, |fraction|) => Base36Upper(fraction[k]))
  }

  lemma Base36Injective(x: int, y: int)
    requires 0 <= x < 36 && 0 <= y < 36
    requires Base36Upper(x) == Base36Upper(y)
    ensures x == y
  {
    assert Base36Upper(x) as int == if x < 10 then x + 48 else x + 55;
    assert Base36Upper(y) as int == if y < 10 then y + 48 else y + 55;
  }

  /** Two generated ids collide exactly when the random numbers agree on
      their first six base-36 digits: nothing else keeps ids apart. */
  lemma OrderIdCollision(a: seq<int>, b: seq<int>)
    requires forall k :: 0 <= k < |a| ==> 0 <= a[k] < 36
    requires forall k :: 0 <= k < |b| ==> 0 <= b[k] < 36
    ensures GenerateOrderId(a) == GenerateOrderId(b) <==> a[..Min(6, |a|)] == b[..Min(6, |b|)]
  {
    var ia, ib := GenerateOrderId(a), GenerateOrderId(b);
    var ma, mb := Min(6, |a|), Min(6, |b|);
    if ia == ib {
      assert ma == mb;
      forall k | 0 <= k < ma ensures a[..ma][k] == b[..mb][k] {
        assert ia[k] == ib[k];
        Base36Injective(a[k], b[k]);
      }
    }
    if a[..ma] == b[..mb] {
      forall k | 0 <= k < ma ensures ia[k] == ib[k] {
        assert a[..ma][k] == b[..mb][k];
      }
    }
  }

  /** createOrder's title column: `product_title.join(', ')`. */
  function EncodeTitles(titles: seq<string>): (column: string)
    ensures |titles| == 1 ==> column == titles[0]
    ensures |titles| == 0 ==> column == ""
  {
    JoinWith(titles, ", ")
  }

  /** How Array.prototype.join writes one quantity: a number as its decimal
      digits, undefined or null (None) as the empty string. */
  function QuantityText(q: Option<int>): string {
    match q
    case None => ""
    case Some(n) => IntToDecimal(n)
  }

  /** createOrder's quantity column: `quantity.join(', ')`. */
  function EncodeQuantities(qs: seq<Option<int>>): (column: string)
    ensures |qs| == 1 ==> column == QuantityText(qs[0])
    ensures |qs| == 0 ==> column == ""
  {
    JoinWith(QuantityTexts(qs), ", ")
  }

  function QuantityTexts(qs: seq<Option<int>>): seq<string> {
    seq(|qs|, k requires 0 <= k < |qs| => QuantityText(qs[k]))
  }

  /** `quantities[index] || 0` after `parseInt(qty.trim(), 10)`: 0 past the
      end of the quantity pieces and for a piece that parses to NaN. */
  function QuantityAt(pieces: seq<string>, k: nat): int {
    if k < |pieces| then OrZero(ParseIntJs(Trim(pieces[k]))) else 0
  }

  /** parseOrderItems: one item per comma-separated title piece, trimmed,
      paired with the quantity piece at the same position. */
  function ParseOrderItems(productTitle: string, quantity: string): (items: seq<LineItem>)
    ensures |items| >= 1
  {
    var titles := Split(productTitle, ',');
    var quantities := Split(quantity, ',');
    seq(|titles|, k requires 0 <= k < |titles| => LineItem(Trim(titles[k]), QuantityAt(quantities, k)))
  }

  function CountChar(s: string, c: char): nat {
    if |s| == 0 then 0 else (if s[0] == c then 1 else 0) + CountChar(s[1..], c)
  }

  /** There is one piece more than there are separators. */
  lemma {:induction false} SplitCount(s: string, sep: char)
    ensures |Split(s, sep)| == CountChar(s, sep) + 1
  {
    if |s| > 0 { SplitCount(s[1..], sep); }
  }

  /** The number of parsed items is one more than the number of commas in the
      title column, whatever the quantity column holds: an order never parses
      to zero items. */
  lemma ItemCount(productTitle: string, quantity: string)
    ensures |ParseOrderItems(productTitle, quantity)| == CountChar(productTitle, ',') + 1
  {
    SplitCount(productTitle, ',');
  }

  /** Titles the codec can carry: no comma inside and no outer whitespace. */
  predicate EncodableTitle(t: string) { ',' !in t && NoOuterSpace(t) }

  function Pair(titles: seq<string>, qs: seq<int>): (items: seq<LineItem>)
    requires |titles| == |qs|
  {
    seq(|titles|, k requires 0 <= k < |titles| => LineItem(titles[k], qs[k]))
  }

  function Present(qs: seq<int>): (r: seq<Option<int>>)
    ensures |r| == |qs| && forall k :: 0 <= k < |qs| ==> r[k] == Some(qs[k])
  {
    seq(|qs|, k requires 0 <= k < |qs| => Some(qs[k]))
  }

  lemma DecimalHasNoComma(n: int)
    ensures ',' !in IntToDecimal(n) && NoOuterSpace(IntToDecimal(n))
  {
    var s := IntToDecimal(n);
    if n < 0 {
      assert s[1..][|s| - 2] == s[|s| - 1];
      assert forall i :: 1 <= i < |s| ==> s[1..][i - 1] == s[i];
    }
  }

  /** Reading a piece written by the encoder after ", ": the trimmed piece
      is the original. */
  lemma TrimJoinedPiece(k: nat, x: string)
    requires NoOuterSpace(x)
    ensures Trim((if k == 0 then "" else " ") + x) == x
  {
    var pad := if k == 0 then "" else " ";
    TrimPadded(pad, x);
  }

  /** The title column reads back as the titles, trimmed piece by piece. */
  lemma TitlesRoundTrip(titles: seq<string>)
    requires |titles| >= 1
    requires forall k :: 0 <= k < |titles| ==> EncodableTitle(titles[k])
    ensures var tp := Split(EncodeTitles(titles), ',');
      |tp| == |titles| && forall k :: 0 <= k < |tp| ==> Trim(tp[k]) == titles[k]
  {
    assert ", " == [','] + " ";
    SplitJoinPieces(titles, ',', " ");
    var tp := Split(EncodeTitles(titles), ',');
    forall k | 0 <= k < |tp| ensures Trim(tp[k]) == titles[k] {
      assert tp[k] == (if k == 0 then "" else " ") + titles[k];
      TrimJoinedPiece(k, titles[k]);
    }
  }

  /** The quantity column reads back as the quantities. */
  lemma QuantitiesRoundTrip(qs: seq<int>)
    requires |qs| >= 1
    ensures var qp := Split(EncodeQuantities(Present(qs)), ',');
      |qp| == |qs| && forall k :: 0 <= k < |qs| ==> QuantityAt(qp, k) == qs[k]
  {
    var texts := QuantityTexts(Present(qs));
    forall k | 0 <= k < |qs| ensures texts[k] == IntToDecimal(qs[k]) && ',' !in texts[k] {
      DecimalHasNoComma(qs[k]);
    }
    JoinedQuantitiesRead(texts, qs);
  }

  lemma JoinedQuantitiesRead(texts: seq<string>, qs: seq<int>)
    requires |texts| == |qs| >= 1
    requires forall k :: 0 <= k < |qs| ==> texts[k] == IntToDecimal(qs[k]) && ',' !in texts[k]
    ensures var qp := Split(JoinWith(texts, ", "), ',');
      |qp| == |qs| && forall k :: 0 <= k < |qs| ==> QuantityAt(qp, k) == qs[k]
  {
    assert ", " == [','] + " ";
    SplitJoinPieces(texts, ',', " ");
    var qp := Split(JoinWith(texts, ", "), ',');
    forall k | 0 <= k < |qs| ensures QuantityAt(qp, k) == qs[k] {
      QuantityPieceReads(k, qs[k]);
    }
  }

  /** One quantity piece, as the encoder wrote it, parses back. */
  lemma QuantityPieceReads(k: nat, n: int)
    ensures OrZero(ParseIntJs(Trim((if k == 0 then "" else " ") + IntToDecimal(n)))) == n
  {
    DecimalHasNoComma(n);
    TrimJoinedPiece(k, IntToDecimal(n));
    ParseIntOfDecimal(n);
  }

  /** The pieces a column written by the encoder splits into: piece k is
      item k, after the space of ", " when k > 0. */
  ghost predicate JoinedPieces(col: string, xs: seq<string>) {
    var p := Split(col, ',');
    |p| == |xs| && forall k :: 0 <= k < |xs| ==> p[k] == (if k == 0 then "" else " ") + xs[k]
  }

  lemma TitlesColumn(titles: seq<string>)
    requires |titles| >= 1
    requires forall k :: 0 <= k < |titles| ==> ',' !in titles[k]
    ensures JoinedPieces(EncodeTitles(titles), titles)
  {
    assert ", " == [','] + " ";
    SplitJoinPieces(titles, ',', " ");
  }

  lemma QuantitiesColumn(qs: seq<int>)
    requires |qs| >= 1
    ensures JoinedPieces(EncodeQuantities(Present(qs)), QuantityTexts(Present(qs)))
    ensures forall k :: 0 <= k < |qs| ==> QuantityTexts(Present(qs))[k] == IntToDecimal(qs[k])
  {
    var texts := QuantityTexts(Present(qs));
    forall k | 0 <= k < |qs| ensures texts[k] == IntToDecimal(qs[k]) && ',' !in texts[k] {
      DecimalHasNoComma(qs[k]);
    }
    assert ", " == [','] + " ";
    SplitJoinPieces(texts, ',', " ");
  }

  /** Round trip: parseOrderItems reads back, in order, the (title,
      quantity) pairs that createOrder wrote, for titles without commas or
      outer whitespace and any integer quantities, one per title. */
  lemma RoundTrip(titles: seq<string>, qs: seq<int>)
    requires |titles| == |qs| >= 1
    requires forall k :: 0 <= k < |titles| ==> EncodableTitle(titles[k])
    ensures ParseOrderItems(EncodeTitles(titles), EncodeQuantities(Present(qs))) == Pair(titles, qs)
  {
    TitlesRoundTrip(titles);
    QuantitiesRoundTrip(qs);
    ParseFromPieces(EncodeTitles(titles), EncodeQuantities(Present(qs)), titles, qs);
  }

  /** parseOrderItems pairs the trimmed title pieces with the quantities
      read at the same positions. */
  lemma ParseFromPieces(tc: string, qc: string, titles: seq<string>, qs: seq<int>)
    requires |titles| == |qs|
    requires var tp := Split(tc, ',');
      |tp| == |titles| && forall k :: 0 <= k < |tp| ==> Trim(tp[k]) == titles[k]
    requires var qp := Split(qc, ',');
      forall k :: 0 <= k < |qs| ==> QuantityAt(qp, k) == qs[k]
    ensures ParseOrderItems(tc, qc) == Pair(titles, qs)
  {
    var items := ParseOrderItems(tc, qc);
    var tp, qp := Split(tc, ','), Split(qc, ',');
    forall k | 0 <= k < |items| ensures items[k] == Pair(titles, qs)[k] {
      assert items[k] == LineItem(Trim(tp[k]), QuantityAt(qp, k));
    }
  }
}
