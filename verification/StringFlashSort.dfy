/** Flashsort on strings: comparator and metric fit together (posix/threads/multithreaded-sort.c). */
module StringFlashSort {
  import opened Bytes
  import opened Order
  import opened FlashSort
  import opened Metrics
  import opened FMetricTable
  import opened PrintedTable

  const FACTOR: real := 0.42

  function Metric(digit: CChar -> real, base: real): CString -> real
    requires base > 0.0
  {
    (x: CString) => Expand(digit, base, x)
  }

  /** A metric that orders strings as strcmp does is all that flashsort needs to sort them. */
  lemma MetricFits(digit: CChar -> real, base: real, s: seq<CString>)
    requires base > 0.0 && OrdersStrings(digit, base)
    ensures TotalPreorder(StrCmp)
    ensures MetricAgrees(StrCmp, Metric(digit, base)) && Separates(StrCmp, Metric(digit, base), s)
  {
    StrCmpPreorder();
    var metric := Metric(digit, base);
    forall x: CString, y: CString ensures StrCmp(x, y) <= 0 ==> metric(x) <= metric(y) {
      StrCmpZero(x, y);
    }
  }

  /** fsort_r with compare_str_full and metric_str_full. */
  method SortStringsFull(a: array<CString>, lo: nat, nmemb: nat)
    requires lo + nmemb <= a.Length
    modifies a
    ensures SortedPerm(StrCmp, old(a[lo..lo + nmemb]), a[lo..lo + nmemb])
    ensures forall p :: 0 <= p < lo || lo + nmemb <= p < a.Length ==> a[p] == old(a[p])
  {
    FullSpaced();
    SpacedOrders(FullDigit, 256.0, 1.0);
    MetricFits(FullDigit, 256.0, a[lo..lo + nmemb]);
    FSortF(a, lo, nmemb, FACTOR, StrCmp, Metric(FullDigit, 256.0));
  }

  /** fsort_r with compare_str_full and metric_binary_printable_pref, for exact shares of heavy enough weights. */
  method SortStringsTable(a: array<CString>, lo: nat, nmemb: nat, factors: seq<real>, ghost weights: seq<nat>)
    requires lo + nmemb <= a.Length && IsTable(factors, weights) && HeavyEnough(weights)
    modifies a
    ensures SortedPerm(StrCmp, old(a[lo..lo + nmemb]), a[lo..lo + nmemb])
    ensures forall p :: 0 <= p < lo || lo + nmemb <= p < a.Length ==> a[p] == old(a[p])
  {
    TableOrdersIff(factors, weights);
    MetricFits(TableDigit(factors), S as real, a[lo..lo + nmemb]);
    FSortF(a, lo, nmemb, FACTOR, StrCmp, Metric(TableDigit(factors), S as real));
  }

  /** The same with the factors as they are printed, for any printed table with digits far enough apart. */
  method SortStringsPrinted(a: array<CString>, lo: nat, nmemb: nat, digits: seq<nat>)
    requires lo + nmemb <= a.Length && |digits| == BYTES && DigitsHeavy(digits)
    modifies a
    ensures SortedPerm(StrCmp, old(a[lo..lo + nmemb]), a[lo..lo + nmemb])
    ensures forall p :: 0 <= p < lo || lo + nmemb <= p < a.Length ==> a[p] == old(a[p])
  {
    PrintedOrdersIff(digits);
    var digit := TableDigit(Decimals(digits));
    MetricFits(digit, S as real, a[lo..lo + nmemb]);
    FSortF(a, lo, nmemb, FACTOR, StrCmp, Metric(digit, S as real));
  }

  /** fsort_r with compare_str_full and metric_binary_printable_pref, as the library is built. */
  method SortStringsShipped(a: array<CString>, lo: nat, nmemb: nat)
    requires lo + nmemb <= a.Length
    modifies a
    ensures SortedPerm(StrCmp, old(a[lo..lo + nmemb]), a[lo..lo + nmemb])
    ensures forall p :: 0 <= p < lo || lo + nmemb <= p < a.Length ==> a[p] == old(a[p])
  {
    ShippedOrders();
    PrintedOrdersIff(Shipped());
    SortStringsPrinted(a, lo, nmemb, Shipped());
  }
}
