/** The UTF-8 validator: lib/utf8_mosq.c, against section 4 of RFC 3629 and section 1.5.4 of MQTT 5.0. */
module Utf8 {
  import opened MosqTypes

  // ---------------------------------------------------------------------------------------------
  // What a well-formed string is
  // ---------------------------------------------------------------------------------------------

  /** The code points a string may contain: no NUL or other control, no surrogate, no non-character */
  predicate Allowed(c: nat) {
    && 0x20 <= c <= 0x10FFFF
    && !(0x7F <= c <= 0x9F)
    && !(0xD800 <= c <= 0xDFFF)
    && !(0xFDD0 <= c <= 0xFDEF)
    && c % 0x1_0000 != 0xFFFE && c % 0x1_0000 != 0xFFFF
  }

  /** The table of section 4 of RFC 3629 */
  function Encode(c: nat): (r: seq<Byte>)
    requires c <= 0x10FFFF
    ensures 1 <= |r| <= 4
  {
    if c < 0x80 then [c]
    else if c < 0x800 then [0xC0 + c / 0x40, 0x80 + c % 0x40]
    else if c < 0x1_0000 then [0xE0 + c / 0x40 / 0x40, 0x80 + c / 0x40 % 0x40, 0x80 + c % 0x40]
    else [0xF0 + c / 0x40 / 0x40 / 0x40, 0x80 + c / 0x40 / 0x40 % 0x40, 0x80 + c / 0x40 % 0x40, 0x80 + c % 0x40]
  }

  predicate AllAllowed(cs: seq<nat>) {
    forall k :: 0 <= k < |cs| ==> Allowed(cs[k])
  }

  function EncodeAll(cs: seq<nat>): seq<Byte>
    requires AllAllowed(cs)
  {
    if cs == [] then [] else Encode(cs[0]) + EncodeAll(cs[1..])
  }

  ghost predicate WellFormed(s: seq<Byte>) {
    exists cs: seq<nat> :: AllAllowed(cs) && EncodeAll(cs) == s
  }

  // ---------------------------------------------------------------------------------------------
  // Reading one code point
  // ---------------------------------------------------------------------------------------------

  predicate Continuation(b: Byte) {
    0x80 <= b < 0xC0
  }

  /** How long a sequence the first byte announces; 0 if no sequence starts with it */
  function Announced(b: Byte): nat {
    if b == 0 then 0
    else if b < 0x80 then 1
    else if 0xC2 <= b < 0xE0 then 2
    else if 0xE0 <= b < 0xF0 then 3
    else if 0xF0 <= b <= 0xF4 then 4
    else 0
  }

  /** The bits of the first byte that belong to the code point */
  function Lead(b: Byte): nat {
    if b < 0x80 then b else if b < 0xE0 then b % 0x20 else if b < 0xF0 then b % 0x10 else b % 0x08
  }

  /** The bits of the first byte and of the k continuation bytes behind it */
  function Gathered(s: seq<Byte>, k: nat): nat
    requires k < |s|
  {
    if k == 0 then Lead(s[0]) else Gathered(s, k - 1) * 0x40 + s[k] % 0x40
  }

  /** The smallest code point that needs n bytes */
  function Smallest(n: nat): nat {
    if n == 3 then 0x800 else if n == 4 then 0x1_0000 else 0
  }

  /** s starts with a complete sequence of n bytes. */
  predicate Complete(s: seq<Byte>, n: nat) {
    && 0 < n <= |s| && n == Announced(s[0])
    && (forall k :: 1 <= k < n ==> Continuation(s[k]))
  }

  /** s starts with the sequence of n bytes for an allowed code point. */
  predicate StartsAllowed(s: seq<Byte>, n: nat) {
    && Complete(s, n)
    && Smallest(n) <= Gathered(s, n - 1)
    && Allowed(Gathered(s, n - 1))
  }

  /** One more continuation byte adds one more digit in base 64. */
  lemma OneMoreDigit(s: seq<Byte>, k: nat)
    requires 0 < k < |s| && Continuation(s[k])
    ensures Gathered(s, k) / 0x40 == Gathered(s, k - 1)
    ensures 0x80 + Gathered(s, k) % 0x40 == s[k]
  {
    assert Gathered(s, k) == Gathered(s, k - 1) * 0x40 + s[k] % 0x40;
    assert s[k] % 0x40 == s[k] - 0x80;
  }

  lemma DigitsOfSequence(s: seq<Byte>, n: nat)
    requires Complete(s, n)
    ensures forall k :: 1 <= k < n ==>
      Gathered(s, k) / 0x40 == Gathered(s, k - 1) && 0x80 + Gathered(s, k) % 0x40 == s[k]
    ensures Gathered(s, 0) == Lead(s[0])
  {
    hide Gathered, Lead;
    forall k | 1 <= k < n
      ensures Gathered(s, k) / 0x40 == Gathered(s, k - 1) && 0x80 + Gathered(s, k) % 0x40 == s[k]
    {
      OneMoreDigit(s, k);
    }
    LeadOnly(s);
  }

  lemma LeadOnly(s: seq<Byte>)
    requires s != []
    ensures Gathered(s, 0) == Lead(s[0])
  {
  }

  /** How large the code point of n bytes is, by its first byte */
  lemma SizeOfSequence(s: seq<Byte>, n: nat)
    requires Complete(s, n)
    ensures n == 1 ==> Gathered(s, 0) < 0x80
    ensures n == 2 ==> 0x80 <= Gathered(s, 1) < 0x800
    ensures n == 3 ==> Gathered(s, 2) < 0x1_0000
  {
    DigitsOfSequence(s, n);
    hide Gathered;
  }

  lemma LeadOfOne(b: Byte)
    requires Announced(b) == 1
    ensures b == Lead(b)
  {
  }

  lemma LeadOfTwo(b: Byte)
    requires Announced(b) == 2
    ensures b == 0xC0 + Lead(b)
  {
  }

  lemma LeadOfThree(b: Byte)
    requires Announced(b) == 3
    ensures b == 0xE0 + Lead(b)
  {
  }

  lemma LeadOfFour(b: Byte)
    requires Announced(b) == 4
    ensures b == 0xF0 + Lead(b)
  {
  }

  /** A sequence for an allowed code point is what the table gives for it. */
  lemma GatheredIsEncoded(s: seq<Byte>, n: nat)
    requires StartsAllowed(s, n)
    ensures Gathered(s, n - 1) <= 0x10FFFF && Encode(Gathered(s, n - 1)) == s[..n]
  {
    DigitsOfSequence(s, n);
    SizeOfSequence(s, n);
    SequenceLength(s, n);
    assert n == Announced(s[0]) && Smallest(n) <= Gathered(s, n - 1);
    hide Gathered, StartsAllowed, Complete, Allowed, Lead;
    var c := Gathered(s, n - 1);
    if n == 1 {
      hide Announced;
      LeadOfOne(s[0]);
      assert Encode(c) == [s[0]] == s[..n];
    } else if n == 2 {
      LeadOfTwo(s[0]);
      hide Announced;
      assert Encode(c) == [s[0], s[1]] == s[..n];
    } else if n == 3 {
      LeadOfThree(s[0]);
      hide Announced;
      assert Gathered(s, 1) == c / 0x40;
      assert Encode(c) == [s[0], s[1], s[2]] == s[..n];
    } else {
      assert n == 4;
      LeadOfFour(s[0]);
      hide Announced;
      assert Gathered(s, 2) == c / 0x40 && Gathered(s, 1) == c / 0x40 / 0x40;
      assert Encode(c) == [s[0], s[1], s[2], s[3]] == s[..n];
    }
  }

  /** The other way: what the table gives is complete and gathers to the code point. */
  lemma EncodedIsComplete(c: nat, s: seq<Byte>)
    requires Allowed(c) && Encode(c) <= s
    ensures Complete(s, |Encode(c)|) && Smallest(|Encode(c)|) <= c
    ensures Lead(s[0]) == if c < 0x80 then c else if c < 0x800 then c / 0x40
                          else if c < 0x1_0000 then c / 0x40 / 0x40 else c / 0x40 / 0x40 / 0x40
  {
    var e := Encode(c);
    assert forall k :: 0 <= k < |e| ==> s[k] == e[k];
  }

  lemma EncodedIsGathered(c: nat, s: seq<Byte>)
    requires Allowed(c) && Encode(c) <= s
    ensures StartsAllowed(s, |Encode(c)|) && Gathered(s, |Encode(c)| - 1) == c
  {
    var e := Encode(c);
    EncodedIsComplete(c, s);
    DigitsOfSequence(s, |e|);
    hide Gathered, Allowed, Lead, Complete;
    assert forall k :: 0 <= k < |e| ==> s[k] == e[k];
    if |e| >= 2 {
      assert Gathered(s, 1) == Gathered(s, 0) * 0x40 + (e[1] - 0x80);
    }
    if |e| >= 3 {
      assert Gathered(s, 2) == Gathered(s, 1) * 0x40 + (e[2] - 0x80);
    }
    if |e| == 4 {
      assert Gathered(s, 3) == Gathered(s, 2) * 0x40 + (e[3] - 0x80);
    }
  }

  lemma SequenceLength(s: seq<Byte>, n: nat)
    requires StartsAllowed(s, n)
    ensures 0 < n <= |s| && n <= 4 && Gathered(s, n - 1) <= 0x10FFFF && Allowed(Gathered(s, n - 1))
  {
  }

  lemma EncodeAllCons(c: nat, cs: seq<nat>)
    requires Allowed(c) && AllAllowed(cs)
    ensures AllAllowed([c] + cs) && EncodeAll([c] + cs) == Encode(c) + EncodeAll(cs)
  {
    assert ([c] + cs)[1..] == cs;
  }

  /** A code point at the front can be taken off. */
  lemma TakeOff(s: seq<Byte>, n: nat)
    requires StartsAllowed(s, n)
    ensures n <= |s| && (WellFormed(s) <==> WellFormed(s[n..]))
  {
    SequenceLength(s, n);
    GatheredIsEncoded(s, n);
    hide Encode, Allowed, StartsAllowed, Gathered;
    var c := Gathered(s, n - 1);
    assert s == s[..n] + s[n..];
    if WellFormed(s) {
      NothingElseInFront(s);
      var cs: seq<nat> :| AllAllowed(cs) && EncodeAll(cs) == s;
      var d, rest := cs[0], cs[1..];
      assert s == Encode(d) + EncodeAll(rest);
      EncodedIsGathered(d, s);
      SequenceIsUnique(s, n, |Encode(d)|);
      assert EncodeAll(rest) == s[n..];
    }
    if WellFormed(s[n..]) {
      var cs: seq<nat> :| AllAllowed(cs) && EncodeAll(cs) == s[n..];
      EncodeAllCons(c, cs);
    }
  }

  lemma SequenceIsUnique(s: seq<Byte>, m: nat, n: nat)
    requires StartsAllowed(s, m) && StartsAllowed(s, n)
    ensures m == n
  {
  }

  /** A string that is not empty and well formed starts with the sequence of an allowed code point. */
  lemma NothingElseInFront(s: seq<Byte>)
    requires s != [] && WellFormed(s)
    ensures StartsAllowed(s, Announced(s[0]))
  {
    hide Gathered, Smallest, Encode;
    var cs: seq<nat> :| AllAllowed(cs) && EncodeAll(cs) == s;
    assert Allowed(cs[0]) && s == Encode(cs[0]) + EncodeAll(cs[1..]);
    EncodedIsGathered(cs[0], s);
  }

  lemma NothingIsWellFormed()
    ensures WellFormed([])
  {
    var none: seq<nat> := [];
    assert EncodeAll(none) == [];
  }

  // ---------------------------------------------------------------------------------------------
  // The validator
  // ---------------------------------------------------------------------------------------------

  /** What the loop has read of the sequence that starts at index i */
  ghost predicate ReadSoFar(s: seq<Byte>, i: nat, j: nat, codepoint: nat) {
    && i + j < |s|
    && (forall k :: 1 <= k <= j ==> Continuation(s[i..][k]))
    && codepoint == Gathered(s[i..], j)
  }

  lemma ReadOneMore(s: seq<Byte>, i: nat, j: nat, codepoint: nat)
    requires ReadSoFar(s, i, j, codepoint) && i + j + 1 < |s| && Continuation(s[i + j + 1])
    ensures ReadSoFar(s, i, j + 1, codepoint * 0x40 + s[i + j + 1] % 0x40)
  {
    assert s[i..][j + 1] == s[i + j + 1];
  }

  lemma NotComplete(s: seq<Byte>, i: nat, n: nat, k: nat)
    requires i < |s| && n == Announced(s[i]) && 1 <= k < n
    requires i + k < |s| ==> !Continuation(s[i + k])
    ensures !WellFormed(s[i..])
  {
    if i + k < |s| {
      assert s[i..][k] == s[i + k];
    }
    if WellFormed(s[i..]) {
      NothingElseInFront(s[i..]);
    }
  }

  lemma NoSuchLead(s: seq<Byte>, i: nat)
    requires i < |s| && Announced(s[i]) == 0
    ensures !WellFormed(s[i..])
  {
    if WellFormed(s[i..]) {
      NothingElseInFront(s[i..]);
    }
  }

  lemma Judged(s: seq<Byte>, i: nat, n: nat, codepoint: nat)
    requires 0 < n && ReadSoFar(s, i, n - 1, codepoint) && n == Announced(s[i])
    ensures WellFormed(s[i..]) <==>
      Smallest(n) <= codepoint && Allowed(codepoint) && WellFormed(s[i + n..])
  {
    hide Allowed, Smallest, Gathered, WellFormed;
    assert s[i..][n..] == s[i + n..];
    assert Complete(s[i..], n);
    if WellFormed(s[i..]) {
      NothingElseInFront(s[i..]);
    }
    if Smallest(n) <= codepoint && Allowed(codepoint) {
      TakeOff(s[i..], n);
    }
  }

  /** mosquitto_validate_utf8: success exactly for the well-formed strings. A NUL must stand behind the string; then
      no byte behind that is read. */
  method ValidateUtf8(str: array?<Byte>, len: int) returns (rc: Rc)
    requires str != null && 0 <= len <= 65536 ==> len < str.Length && str[len] == 0
    ensures str == null || len < 0 || len > 65536 ==> rc == Inval
    ensures str != null && 0 <= len <= 65536 ==> rc == if WellFormed(str[..len]) then Success else MalformedUtf8
  {
    if str == null {
      return Inval;
    }
    if len < 0 || len > 65536 {
      return Inval;
    }
    hide WellFormed, Gathered, ReadSoFar;
    ghost var s: seq<Byte> := str[..len];
    NothingIsWellFormed();
    var i := 0;
    assert s[0..] == s;
    while i < len
      invariant 0 <= i <= len
      invariant WellFormed(s) <==> WellFormed(s[i..])
    {
      ghost var start := i;
      assert s[i] == str[i];
      var codelen, codepoint: nat;
      if str[i] == 0 {
        NoSuchLead(s, i);
        return MalformedUtf8;
      } else if str[i] <= 0x7F {
        codelen, codepoint := 1, str[i];
      } else if 0xC0 <= str[i] < 0xE0 {
        if str[i] == 0xC0 || str[i] == 0xC1 {
          NoSuchLead(s, i);
          return MalformedUtf8;
        }
        codelen, codepoint := 2, str[i] % 0x20;
      } else if 0xE0 <= str[i] < 0xF0 {
        codelen, codepoint := 3, str[i] % 0x10;
      } else if 0xF0 <= str[i] < 0xF8 {
        if str[i] > 0xF4 {
          NoSuchLead(s, i);
          return MalformedUtf8;
        }
        codelen, codepoint := 4, str[i] % 0x08;
      } else {
        NoSuchLead(s, i);
        return MalformedUtf8;
      }
      if i == len - codelen + 1 {
        NotComplete(s, i, codelen, codelen - 1);
        return MalformedUtf8;
      }
      ReadLead(s, i);
      var j := 0;
      while j < codelen - 1
        invariant 0 <= j <= codelen - 1 && i == start + j < len
        invariant codepoint >= 0 && ReadSoFar(s, start, j, codepoint)
      {
        i := i + 1;
        if !(0x80 <= str[i] < 0xC0) {
          NotComplete(s, start, codelen, j + 1);
          return MalformedUtf8;
        }
        ReadOneMore(s, start, j, codepoint);
        codepoint := codepoint * 0x40 + str[i] % 0x40;
        j := j + 1;
      }
      Judged(s, start, codelen, codepoint);
      LeadBound(s, start, codelen, codepoint);
      if 0xD800 <= codepoint <= 0xDFFF {
        return MalformedUtf8;
      }
      if codelen == 3 && codepoint < 0x0800 {
        return MalformedUtf8;
      } else if codelen == 4 && (codepoint < 0x1_0000 || codepoint > 0x10FFFF) {
        return MalformedUtf8;
      }
      if 0xFDD0 <= codepoint <= 0xFDEF {
        return MalformedUtf8;
      }
      if codepoint % 0x1_0000 == 0xFFFE || codepoint % 0x1_0000 == 0xFFFF {
        return MalformedUtf8;
      }
      if codepoint <= 0x001F || 0x007F <= codepoint <= 0x009F {
        return MalformedUtf8;
      }
      i := i + 1;
    }
    assert s[len..] == [];
    return Success;
  }

  lemma ReadLead(s: seq<Byte>, i: nat)
    requires i < |s|
    ensures ReadSoFar(s, i, 0, Lead(s[i]))
  {
  }

  /** Three bytes do not reach beyond U+FFFF. */
  lemma LeadBound(s: seq<Byte>, i: nat, n: nat, codepoint: nat)
    requires 0 < n && ReadSoFar(s, i, n - 1, codepoint) && n == Announced(s[i])
    ensures n < 4 ==> codepoint < 0x1_0000
  {
    SizeOfSequence(s[i..], n);
  }
}
