/** The encrypted backup archive: a header and a run of sealed chunks, each bound to its index and
    to whether it is the last. The KDF is ideal (a key IS the inputs it was derived from) and so is
    the AEAD: what opens is what was sealed, and nothing else. */
module BackupCrypto {
  import opened Wrappers
  import Text

  type Byte = b: int | 0 <= b < 256
  type Bytes = seq<Byte>

  const MAGIC: Bytes := [66, 65, 67, 75, 89, 65, 82, 68, 45, 69, 78, 67, 47, 49, 10]
  const SALT_BYTES := 16
  const NONCE_PREFIX_BYTES := 8
  const SCRYPT_N := 131072
  const SCRYPT_R := 8
  const SCRYPT_P := 1
  const MIN_SCRYPT_N := 16384
  const MAX_SCRYPT_N := 1048576
  const GCM_TAG_BYTES := 16
  const CHUNK_BYTES := 4 * 1024 * 1024
  const UINT32 := 0x1_0000_0000

  datatype Error =
    | PassphraseRequired | NotOurs | TruncatedHeader | UnreasonableCost | UnreasonableParameters
    | MissingFinalChunk | IncompleteLength | ChunkTooLarge | IncompleteChunk | BadTag
    | IndexOverflow  // `struct.error`: the index no longer fits the nonce's counter field

  datatype Key = Key(passphrase: string, salt: Bytes, n: nat, r: nat, p: nat)

  /** What one AEAD call binds together. */
  datatype Sealed = Sealed(key: Key, nonce: Bytes, aad: string, ciphertext: Bytes)

  type Sealer = (Key, Bytes, string, Bytes) -> Bytes

  /** The ideal AEAD's view of the world: the sealed tuples there are, with their plaintexts. */
  type Opener = map<Sealed, Bytes>

  /** GCM ciphertexts are the plaintext's length plus the tag. */
  ghost predicate AddsATag(seal: Sealer) {
    forall k, n, a, p :: |seal(k, n, a, p)| == |p| + GCM_TAG_BYTES
  }

  function Open(opener: Opener, key: Key, nonce: Bytes, aad: string, ciphertext: Bytes): Option<Bytes> {
    var s := Sealed(key, nonce, aad, ciphertext);
    if s in opener then Some(opener[s]) else None
  }

  // ----- struct.pack(">I") and the associated data -----

  function BigEndian(n: nat): (b: Bytes)
    requires n < UINT32
    ensures |b| == 4
  {
    [n / 256 / 256 / 256, n / 256 / 256 % 256, n / 256 % 256, n % 256]
  }

  function FromBigEndian(b: Bytes): (n: nat)
    requires |b| == 4
    ensures n < UINT32
  {
    (((b[0] as int) * 256 + b[1]) * 256 + b[2]) * 256 + b[3]
  }

  lemma BigEndianRoundTrip(n: nat)
    requires n < UINT32
    ensures FromBigEndian(BigEndian(n)) == n
  {
  }

  lemma FromBigEndianRoundTrip(b: Bytes)
    requires |b| == 4
    ensures BigEndian(FromBigEndian(b)) == b
  {
    var n := FromBigEndian(b);
    assert n / 256 == ((b[0] as int) * 256 + b[1]) * 256 + b[2];
    assert n / 256 / 256 == (b[0] as int) * 256 + b[1];
  }

  function Aad(index: nat, final: bool): string {
    "backyard-enc/1|" + (Text.Decimal(index) + ['|'] + (if final then "final" else "cont"))
  }

  /** The tag covers where a chunk sits and whether the stream ends there: no two (index, final)
      pairs share their associated data. */
  lemma AadInjective(i: nat, final: bool, j: nat, final': bool)
    requires Aad(i, final) == Aad(j, final')
    ensures i == j && final == final'
  {
    var tag, tag' := if final then "final" else "cont", if final' then "final" else "cont";
    var x, y := Text.Decimal(i) + ['|'] + tag, Text.Decimal(j) + ['|'] + tag';
    assert x == Aad(i, final)[15..] && y == Aad(j, final')[15..];
    Text.SplitAtFirst(Text.Decimal(i), tag, Text.Decimal(j), tag', '|');
    Text.DecimalInjective(i, j);
  }

  function Nonce(prefix: Bytes, index: nat): Bytes
    requires index < UINT32
  {
    prefix + BigEndian(index)
  }

  lemma NonceInjective(prefix: Bytes, i: nat, prefix': Bytes, j: nat)
    requires i < UINT32 && j < UINT32 && |prefix| == |prefix'|
    requires Nonce(prefix, i) == Nonce(prefix', j)
    ensures prefix == prefix' && i == j
  {
    assert prefix == Nonce(prefix, i)[..|prefix|] && prefix' == Nonce(prefix', j)[..|prefix'|];
    assert BigEndian(i) == Nonce(prefix, i)[|prefix|..] && BigEndian(j) == Nonce(prefix', j)[|prefix'|..];
    BigEndianRoundTrip(i);
    BigEndianRoundTrip(j);
  }

  // ----- The archive as a value -----

  /** One encryption run, at any cost `decrypt` accepts: its key, its nonce prefix and the chunks its reads
      returned. */
  datatype Run = Run(key: Key, prefix: Bytes, chunks: seq<Bytes>)
  {
    ghost predicate Valid() {
      && key.passphrase != "" && |key.salt| == SALT_BYTES && |prefix| == NONCE_PREFIX_BYTES
      && MIN_SCRYPT_N <= key.n <= MAX_SCRYPT_N && PowerOfTwo(key.n) && 1 <= key.r <= 32 && 1 <= key.p <= 16
      && 1 <= |chunks| <= UINT32
      && forall c | c in chunks :: |c| <= CHUNK_BYTES
    }

    function Final(i: nat): bool { i + 1 == |chunks| }

    /** The tuple sealed for chunk `i`. */
    function SealedAt(seal: Sealer, i: nat): Sealed
      requires i < |chunks| && i < UINT32
    {
      var nonce, aad := Nonce(prefix, i), Aad(i, Final(i));
      Sealed(key, nonce, aad, seal(key, nonce, aad, chunks[i]))
    }
  }

  function Flatten(chunks: seq<Bytes>): Bytes {
    if chunks == [] then [] else chunks[0] + Flatten(chunks[1..])
  }

  function Frame(ciphertext: Bytes): Bytes
    requires |ciphertext| < UINT32
  {
    BigEndian(|ciphertext|) + ciphertext
  }

  function Header(run: Run): Bytes
    requires run.key.n < UINT32 && run.key.r < UINT32 && run.key.p < UINT32
  {
    MAGIC + BigEndian(run.key.n) + BigEndian(run.key.r) + BigEndian(run.key.p) + run.key.salt + run.prefix
  }

  ghost function Frames(seal: Sealer, run: Run, from: nat): Bytes
    requires AddsATag(seal) && run.Valid() && from <= |run.chunks|
    decreases |run.chunks| - from
  {
    if from == |run.chunks| then []
    else Frame(run.SealedAt(seal, from).ciphertext) + Frames(seal, run, from + 1)
  }

  ghost function Archive(seal: Sealer, run: Run): Bytes
    requires AddsATag(seal) && run.Valid()
  {
    Header(run) + Frames(seal, run, 0)
  }

  /** The ideal AEAD after one `encrypt`: its chunks open, and nothing else does. */
  ghost predicate SealedBy(opener: Opener, seal: Sealer, run: Run)
    requires AddsATag(seal) && run.Valid()
  {
    && (forall i: nat | i < |run.chunks| ::
          run.SealedAt(seal, i) in opener && opener[run.SealedAt(seal, i)] == run.chunks[i])
    && (forall s | s in opener :: exists i: nat :: i < |run.chunks| && s == run.SealedAt(seal, i))
  }

  lemma {:induction false} Openings(sealed: seq<Sealed>, plain: seq<Bytes>) returns (opener: Opener)
    requires |sealed| == |plain| && forall i, j | 0 <= i < j < |sealed| :: sealed[i] != sealed[j]
    ensures forall i | 0 <= i < |sealed| :: sealed[i] in opener && opener[sealed[i]] == plain[i]
    ensures forall s | s in opener :: s in sealed
  {
    if sealed == [] {
      opener := map[];
    } else {
      var last := |sealed| - 1;
      opener := Openings(sealed[..last], plain[..last]);
      assert forall i | 0 <= i < last :: sealed[..last][i] == sealed[i] && plain[..last][i] == plain[i];
      opener := opener[sealed[last] := plain[last]];
    }
  }

  /** Such a world exists for every run: distinct nonces keep the sealed tuples apart. */
  lemma SealedWorldExists(seal: Sealer, run: Run) returns (opener: Opener)
    requires AddsATag(seal) && run.Valid()
    ensures SealedBy(opener, seal, run)
  {
    var sealed := seq(|run.chunks|, i requires 0 <= i < |run.chunks| => run.SealedAt(seal, i));
    forall i, j | 0 <= i < j < |sealed| ensures sealed[i] != sealed[j] {
      SealedApart(seal, run, i, j);
    }
    opener := Openings(sealed, run.chunks);
    forall s | s in opener ensures exists i: nat :: i < |run.chunks| && s == run.SealedAt(seal, i) {
      var i :| 0 <= i < |sealed| && sealed[i] == s;
      assert s == run.SealedAt(seal, i);
    }
    forall i: nat | i < |run.chunks|
      ensures run.SealedAt(seal, i) in opener && opener[run.SealedAt(seal, i)] == run.chunks[i]
    {
      assert sealed[i] == run.SealedAt(seal, i);
    }
  }

  lemma SealedApart(seal: Sealer, run: Run, i: nat, j: nat)
    requires AddsATag(seal) && run.Valid() && i < j < |run.chunks|
    ensures run.SealedAt(seal, i) != run.SealedAt(seal, j)
  {
    if run.SealedAt(seal, i).nonce == run.SealedAt(seal, j).nonce {
      NonceInjective(run.prefix, i, run.prefix, j);
    }
  }

  // ----- What decrypting a byte string does -----

  /** The error raised, if any, and what had been written to the output by then. */
  datatype Outcome = Outcome(error: Option<Error>, written: Bytes)

  function Stop(e: Error): Outcome { Outcome(Some(e), []) }

  function DecryptFrames(opener: Opener, key: Key, prefix: Bytes, src: Bytes, index: nat): Outcome {
    if src == [] then Stop(MissingFinalChunk)
    else if |src| < 4 then Stop(IncompleteLength)
    else
      var size := FromBigEndian(src[..4]);
      if size > CHUNK_BYTES + GCM_TAG_BYTES then Stop(ChunkTooLarge)
      else if |src| - 4 < size then Stop(IncompleteChunk)
      else if index >= UINT32 then Stop(IndexOverflow)
      else
        var sealed, nonce := src[4..4 + size], Nonce(prefix, index);
        match Open(opener, key, nonce, Aad(index, true), sealed)
        case Some(plain) => Outcome(None, plain)
        case None =>
          match Open(opener, key, nonce, Aad(index, false), sealed)
          case None => Stop(BadTag)
          case Some(plain) =>
            var rest := DecryptFrames(opener, key, prefix, src[4 + size..], index + 1);
            rest.(written := plain + rest.written)
  }

  /** `n & (n - 1) == 0` for a positive n. */
  predicate PowerOfTwo(n: nat) {
    n == 1 || (n > 1 && n % 2 == 0 && PowerOfTwo(n / 2))
  }

  const HEADER_BYTES := |MAGIC| + 12 + SALT_BYTES + NONCE_PREFIX_BYTES

  function Decrypted(opener: Opener, src: Bytes, passphrase: string): Outcome {
    if |src| < |MAGIC| || src[..|MAGIC|] != MAGIC then Stop(NotOurs)
    else if |src| < |MAGIC| + 12 then Stop(TruncatedHeader)
    else
      var n := FromBigEndian(src[15..19]);
      var r := FromBigEndian(src[19..23]);
      var p := FromBigEndian(src[23..27]);
      if !(MIN_SCRYPT_N <= n <= MAX_SCRYPT_N && PowerOfTwo(n)) then Stop(UnreasonableCost)
      else if !(1 <= r <= 32) || !(1 <= p <= 16) then Stop(UnreasonableParameters)
      else if |src| < HEADER_BYTES then Stop(TruncatedHeader)
      else DecryptFrames(opener, Key(passphrase, src[27..43], n, r, p), src[43..51], src[51..], 0)
  }

  // ----- Main results -----

  /** Opening at a position finds that chunk or nothing. */
  lemma OnlyItsOwnChunkOpens(opener: Opener, seal: Sealer, run: Run, key: Key, prefix: Bytes, index: nat,
                             final: bool, ciphertext: Bytes)
    requires AddsATag(seal) && run.Valid() && SealedBy(opener, seal, run)
    requires |prefix| == NONCE_PREFIX_BYTES && index < UINT32
    ensures Open(opener, key, Nonce(prefix, index), Aad(index, final), ciphertext) ==
            if key == run.key && prefix == run.prefix && index < |run.chunks| && final == run.Final(index)
               && ciphertext == run.SealedAt(seal, index).ciphertext
            then Some(run.chunks[index]) else None
  {
    var s := Sealed(key, Nonce(prefix, index), Aad(index, final), ciphertext);
    if s in opener {
      var i: nat :| i < |run.chunks| && s == run.SealedAt(seal, i);
      NonceInjective(prefix, index, run.prefix, i);
      AadInjective(index, final, i, run.Final(i));
    } else if key == run.key && prefix == run.prefix && index < |run.chunks| && final == run.Final(index) {
      assert run.SealedAt(seal, index) in opener;
    }
  }

  lemma PrefixCut(a: Bytes, b: Bytes, src: Bytes)
    ensures a + b <= src <==> a <= src && b <= src[|a|..]
  {
    if a + b <= src {
      assert a == (a + b)[..|a|] == src[..|a|];
      assert b == (a + b)[|a|..] == src[|a|..][..|b|];
    }
  }

  lemma Associative(a: Bytes, b: Bytes, c: Bytes)
    ensures (a + b) + c == a + (b + c)
  {
  }

  /** The input begins with a frame exactly when its length field and that many bytes say so. */
  lemma FrameCut(ct: Bytes, src: Bytes)
    requires |ct| < UINT32
    ensures Frame(ct) <= src <==>
            |src| >= 4 && |src| - 4 >= FromBigEndian(src[..4]) && src[4..4 + FromBigEndian(src[..4])] == ct
    ensures Frame(ct) <= src ==> src[|Frame(ct)|..] == src[4 + FromBigEndian(src[..4])..]
  {
    BigEndianRoundTrip(|ct|);
    PrefixCut(BigEndian(|ct|), ct, src);
    if |src| >= 4 {
      FromBigEndianRoundTrip(src[..4]);
    }
  }

  /** One turn of the loop: the expected frame, opened under its own key, or a refusal. */
  lemma FrameStep(opener: Opener, seal: Sealer, run: Run, key: Key, prefix: Bytes, src: Bytes, index: nat)
    requires AddsATag(seal) && run.Valid() && SealedBy(opener, seal, run)
    requires |prefix| == NONCE_PREFIX_BYTES && index < |run.chunks|
    ensures var o := DecryptFrames(opener, key, prefix, src, index);
            var frame := Frame(run.SealedAt(seal, index).ciphertext);
            if !(key == run.key && prefix == run.prefix && frame <= src) then
              o.error.Some? && o.written == []
            else if run.Final(index) then
              o == Outcome(None, run.chunks[index])
            else
              var rest := DecryptFrames(opener, key, prefix, src[|frame|..], index + 1);
              o == Outcome(rest.error, run.chunks[index] + rest.written)
  {
    FrameCut(run.SealedAt(seal, index).ciphertext, src);
    if |src| >= 4 && FromBigEndian(src[..4]) <= |src| - 4 {
      var sealed := src[4..4 + FromBigEndian(src[..4])];
      OnlyItsOwnChunkOpens(opener, seal, run, key, prefix, index, true, sealed);
      OnlyItsOwnChunkOpens(opener, seal, run, key, prefix, index, false, sealed);
    }
  }

  /** Only a prefix of the plaintext is written, all of it on success, and success is `accepted`. */
  ghost predicate Authentic(o: Outcome, plain: Bytes, accepted: bool) {
    o.written <= plain && (o.error.None? ==> o.written == plain) && (o.error.None? <==> accepted)
  }

  lemma AuthenticAfter(chunk: Bytes, rest: Outcome, plain: Bytes, accepted: bool)
    requires Authentic(rest, plain, accepted)
    ensures Authentic(Outcome(rest.error, chunk + rest.written), chunk + plain, accepted)
  {
  }

  lemma FlattenFrom(run: Run, index: nat)
    requires index < |run.chunks|
    ensures Flatten(run.chunks[index..]) == run.chunks[index] + Flatten(run.chunks[index + 1..])
  {
    assert run.chunks[index..][1..] == run.chunks[index + 1..];
  }

  /** From chunk `index` on: what comes out is a prefix of what is left of the plaintext, and the
      run succeeds exactly when the input continues with every remaining frame. */
  lemma {:induction false} FramesAuthentic(opener: Opener, seal: Sealer, run: Run, key: Key, prefix: Bytes,
                                           src: Bytes, index: nat)
    requires AddsATag(seal) && run.Valid() && SealedBy(opener, seal, run)
    requires |prefix| == NONCE_PREFIX_BYTES && index < |run.chunks|
    ensures Authentic(DecryptFrames(opener, key, prefix, src, index), Flatten(run.chunks[index..]),
                      key == run.key && prefix == run.prefix && Frames(seal, run, index) <= src)
    decreases |run.chunks| - index
  {
    var frame := Frame(run.SealedAt(seal, index).ciphertext);
    FrameStep(opener, seal, run, key, prefix, src, index);
    PrefixCut(frame, Frames(seal, run, index + 1), src);
    FlattenFrom(run, index);
    if key == run.key && prefix == run.prefix && frame <= src && !run.Final(index) {
      var left := src[|frame|..];
      FramesAuthentic(opener, seal, run, key, prefix, left, index + 1);
      AuthenticAfter(run.chunks[index], DecryptFrames(opener, key, prefix, left, index + 1),
                     Flatten(run.chunks[index + 1..]), Frames(seal, run, index + 1) <= left);
    }
  }

  function TwoToThe(k: nat): (n: nat)
    ensures n >= 1
  {
    if k == 0 then 1 else 2 * TwoToThe(k - 1)
  }

  lemma {:induction false} TwoToTheIsAPower(k: nat)
    ensures PowerOfTwo(TwoToThe(k))
  {
    if k > 0 {
      TwoToTheIsAPower(k - 1);
      assert TwoToThe(k) / 2 == TwoToThe(k - 1);
    }
  }

  lemma OurCostIsReasonable()
    ensures MIN_SCRYPT_N <= SCRYPT_N <= MAX_SCRYPT_N && PowerOfTwo(SCRYPT_N)
  {
    assert TwoToThe(5) == 32;
    assert TwoToThe(9) == 512;
    assert TwoToThe(13) == 8192;
    assert TwoToThe(17) == SCRYPT_N;
    TwoToTheIsAPower(17);
  }

  ghost predicate IsTwoToTheSome(n: int) { exists k: nat :: n == TwoToThe(k) }

  lemma {:induction false} PowersOfTwoExactly(n: nat)
    ensures PowerOfTwo(n) <==> IsTwoToTheSome(n)
  {
    if PowerOfTwo(n) {
      if n == 1 {
        assert n == TwoToThe(0);
      } else {
        PowersOfTwoExactly(n / 2);
        var k: nat :| n / 2 == TwoToThe(k);
        assert n == TwoToThe(k + 1);
      }
    }
    if k: nat :| n == TwoToThe(k) {
      TwoToTheIsAPower(k);
    }
  }

  /** Header fields and chunk lengths are written most significant byte first. */
  lemma MostSignificantFirst(b: Bytes)
    requires |b| == 4
    ensures FromBigEndian(b) == 16777216 * (b[0] as int) + 65536 * (b[1] as int) + 256 * (b[2] as int) + b[3] as int
  {
  }

  function Four(b: Bytes, i: nat): int
    requires i + 4 <= |b|
  {
    16777216 * (b[i] as int) + 65536 * (b[i + 1] as int) + 256 * (b[i + 2] as int) + b[i + 3] as int
  }

  /** Before anything is derived or opened: a cost out of bounds or no power of two, or other parameters out
      of bounds, and nothing is written - whatever the passphrase and the AEAD. */
  lemma UnreasonableHeadersAreRefused(opener: Opener, src: Bytes, passphrase: string)
    requires |src| >= 27 && src[..15] == MAGIC
    ensures var n, r, p := Four(src, 15), Four(src, 19), Four(src, 23);
            var cost := 16384 <= n <= 1048576 && IsTwoToTheSome(n);
            && (!cost ==> Decrypted(opener, src, passphrase) == Outcome(Some(UnreasonableCost), []))
            && (cost && !(1 <= r <= 32 && 1 <= p <= 16) ==>
                  Decrypted(opener, src, passphrase) == Outcome(Some(UnreasonableParameters), []))
  {
    MostSignificantFirst(src[15..19]);
    MostSignificantFirst(src[19..23]);
    MostSignificantFirst(src[23..27]);
    assert |MAGIC| == 15;
    assert Four(src, 15) == FromBigEndian(src[15..19]) && Four(src, 19) == FromBigEndian(src[19..23]);
    assert Four(src, 23) == FromBigEndian(src[23..27]);
    PowersOfTwoExactly(FromBigEndian(src[15..19]));
  }

  /** Nor is a chunk read that is longer than this format writes, whatever is under its tag. */
  lemma LongChunksAreRefused(opener: Opener, key: Key, prefix: Bytes, src: Bytes, index: nat)
    requires |src| >= 4 && Four(src, 0) > 4194304 + 16
    ensures DecryptFrames(opener, key, prefix, src, index) == Outcome(Some(ChunkTooLarge), [])
  {
    MostSignificantFirst(src[..4]);
  }

  /** The header read from `src` is the run's exactly when the run's header is a prefix of `src`. */
  lemma HeaderCut(run: Run, src: Bytes)
    requires run.Valid() && |src| >= HEADER_BYTES
    ensures Header(run) <= src <==>
            && src[..15] == MAGIC && src[43..51] == run.prefix
            && run.key == Key(run.key.passphrase, src[27..43], FromBigEndian(src[15..19]),
                              FromBigEndian(src[19..23]), FromBigEndian(src[23..27]))
  {
    var h := Header(run);
    assert |h| == HEADER_BYTES;
    assert h[..15] == MAGIC && h[15..19] == BigEndian(run.key.n) && h[19..23] == BigEndian(run.key.r)
        && h[23..27] == BigEndian(run.key.p) && h[27..43] == run.key.salt && h[43..51] == run.prefix;
    BigEndianRoundTrip(run.key.n);
    BigEndianRoundTrip(run.key.r);
    BigEndianRoundTrip(run.key.p);
    if h <= src {
      assert forall a, b | 0 <= a <= b <= HEADER_BYTES :: h[a..b] == src[a..b];
    } else {
      FromBigEndianRoundTrip(src[15..19]);
      FromBigEndianRoundTrip(src[19..23]);
      FromBigEndianRoundTrip(src[23..27]);
      assert src[..51] == src[..15] + src[15..19] + src[19..23] + src[23..27] + src[27..43] + src[43..51];
    }
  }

  function KeyRead(src: Bytes, passphrase: string): Key
    requires |src| >= HEADER_BYTES
  {
    Key(passphrase, src[27..43], FromBigEndian(src[15..19]), FromBigEndian(src[19..23]), FromBigEndian(src[23..27]))
  }

  /** Decryption reaches the frames whenever the run's own header is in front, and when it reaches
      them under the run's key and prefix, that header was in front. */
  lemma HeaderGate(opener: Opener, run: Run, src: Bytes, passphrase: string)
    requires run.Valid()
    ensures var o, header := Decrypted(opener, src, passphrase), Header(run) <= src;
            if |src| < HEADER_BYTES then o.error.Some? && o.written == [] && !header
            else
              var key, prefix := KeyRead(src, passphrase), src[43..51];
              || (o.error.Some? && o.written == [] && !header)
              || (o == DecryptFrames(opener, key, prefix, src[51..], 0)
                  && (key == run.key && prefix == run.prefix <==> header && passphrase == run.key.passphrase))
  {
    assert |Header(run)| == HEADER_BYTES;
    if |src| >= HEADER_BYTES {
      HeaderCut(run, src);
    }
  }

  /** Whatever bytes and passphrase `decrypt` is given: it writes only a prefix of the plaintext; it
      succeeds exactly when the passphrase is right and the input begins with the whole archive; and
      then it has written the whole plaintext. Chunks reordered, dropped, altered or cut off fail. */
  lemma DecryptIsAuthentic(opener: Opener, seal: Sealer, run: Run, src: Bytes, passphrase: string)
    requires AddsATag(seal) && run.Valid() && SealedBy(opener, seal, run)
    ensures var o := Decrypted(opener, src, passphrase);
            && o.written <= Flatten(run.chunks)
            && (o.error.None? ==> o.written == Flatten(run.chunks))
            && (o.error.None? <==> passphrase == run.key.passphrase && Archive(seal, run) <= src)
  {
    HeaderGate(opener, run, src, passphrase);
    PrefixCut(Header(run), Frames(seal, run, 0), src);
    if |src| >= HEADER_BYTES {
      FramesAuthentic(opener, seal, run, KeyRead(src, passphrase), src[43..51], src[51..], 0);
      assert run.chunks[0..] == run.chunks;
    }
  }

  /** `decrypt` undoes `encrypt`, for every chunking and whatever follows the archive. */
  lemma DecryptUndoesEncrypt(opener: Opener, seal: Sealer, run: Run, trailing: Bytes)
    requires AddsATag(seal) && run.Valid() && SealedBy(opener, seal, run)
    ensures Decrypted(opener, Archive(seal, run) + trailing, run.key.passphrase)
         == Outcome(None, Flatten(run.chunks))
  {
    DecryptIsAuthentic(opener, seal, run, Archive(seal, run) + trailing, run.key.passphrase);
  }

  // ----- Several archives under one AEAD -----

  /** Runs told apart by their keys, which differ when salts do, or by their nonce prefixes. */
  ghost predicate ToldApart(runs: seq<Run>) {
    && (forall k | 0 <= k < |runs| :: runs[k].Valid())
    && forall k, l | 0 <= k < l < |runs| :: runs[k].key != runs[l].key || runs[k].prefix != runs[l].prefix
  }

  ghost predicate SealedByAll(opener: Opener, seal: Sealer, runs: seq<Run>)
    requires AddsATag(seal) && ToldApart(runs)
  {
    && (forall k: nat, i: nat | k < |runs| && i < |runs[k].chunks| ::
          runs[k].SealedAt(seal, i) in opener && opener[runs[k].SealedAt(seal, i)] == runs[k].chunks[i])
    && (forall s | s in opener ::
          exists k: nat, i: nat :: k < |runs| && i < |runs[k].chunks| && s == runs[k].SealedAt(seal, i))
  }

  /** What of the AEAD a decryption under this key and prefix can meet. */
  function Under(opener: Opener, key: Key, prefix: Bytes): Opener {
    map s | s in opener && s.key == key && prefix <= s.nonce :: opener[s]
  }

  lemma {:induction false} OnlyUnderMatters(opener: Opener, key: Key, prefix: Bytes, src: Bytes, index: nat)
    ensures DecryptFrames(opener, key, prefix, src, index)
         == DecryptFrames(Under(opener, key, prefix), key, prefix, src, index)
    decreases |src|
  {
    if |src| >= 4 && FromBigEndian(src[..4]) <= |src| - 4 && index < UINT32 {
      var size := FromBigEndian(src[..4]);
      assert prefix <= Nonce(prefix, index);
      OnlyUnderMatters(opener, key, prefix, src[4 + size..], index + 1);
    }
  }

  /** Under a run's key and prefix the world of all runs is the world of that run. */
  lemma UnderOneRun(opener: Opener, seal: Sealer, runs: seq<Run>, k: nat)
    requires AddsATag(seal) && ToldApart(runs) && SealedByAll(opener, seal, runs) && k < |runs|
    ensures SealedBy(Under(opener, runs[k].key, runs[k].prefix), seal, runs[k])
  {
    var under := Under(opener, runs[k].key, runs[k].prefix);
    forall s | s in under ensures exists i: nat :: i < |runs[k].chunks| && s == runs[k].SealedAt(seal, i) {
      var l: nat, i: nat :| l < |runs| && i < |runs[l].chunks| && s == runs[l].SealedAt(seal, i);
      NonceHasItsPrefix(runs[k].prefix, runs[l].prefix, i);
    }
  }

  lemma NonceHasItsPrefix(prefix: Bytes, prefix': Bytes, i: nat)
    requires |prefix| == |prefix'| && i < UINT32 && prefix <= Nonce(prefix', i)
    ensures prefix == prefix'
  {
    assert Nonce(prefix', i)[..|prefix|] == prefix';
  }

  /** Under any other key or prefix nothing opens. */
  lemma UnderNoRun(opener: Opener, seal: Sealer, runs: seq<Run>, key: Key, prefix: Bytes)
    requires AddsATag(seal) && ToldApart(runs) && SealedByAll(opener, seal, runs) && |prefix| == NONCE_PREFIX_BYTES
    requires forall k | 0 <= k < |runs| :: key != runs[k].key || prefix != runs[k].prefix
    ensures Under(opener, key, prefix) == map[]
  {
    forall s | s in Under(opener, key, prefix) ensures false {
      var l: nat, i: nat :| l < |runs| && i < |runs[l].chunks| && s == runs[l].SealedAt(seal, i);
      NonceHasItsPrefix(prefix, runs[l].prefix, i);
    }
  }

  lemma NothingOpensNothing(key: Key, prefix: Bytes, src: Bytes, index: nat)
    ensures DecryptFrames(map[], key, prefix, src, index).error.Some?
    ensures DecryptFrames(map[], key, prefix, src, index).written == []
  {
  }

  /** Its own header chooses the run, and no other run's chunks can stand in for it. */
  lemma OfOneRun(opener: Opener, seal: Sealer, runs: seq<Run>, src: Bytes, passphrase: string, k: nat)
    requires AddsATag(seal) && ToldApart(runs) && SealedByAll(opener, seal, runs) && k < |runs|
    requires Header(runs[k]) <= src && passphrase == runs[k].key.passphrase
    ensures Authentic(Decrypted(opener, src, passphrase), Flatten(runs[k].chunks), Archive(seal, runs[k]) <= src)
  {
    var run := runs[k];
    HeaderGate(opener, run, src, passphrase);
    OnlyUnderMatters(opener, run.key, run.prefix, src[HEADER_BYTES..], 0);
    UnderOneRun(opener, seal, runs, k);
    FramesAuthentic(Under(opener, run.key, run.prefix), seal, run, run.key, run.prefix, src[HEADER_BYTES..], 0);
    PrefixCut(Header(run), Frames(seal, run, 0), src);
    assert run.chunks[0..] == run.chunks;
  }

  lemma FramesOfNoRun(opener: Opener, seal: Sealer, runs: seq<Run>, key: Key, prefix: Bytes, src: Bytes)
    requires AddsATag(seal) && ToldApart(runs) && SealedByAll(opener, seal, runs) && |prefix| == NONCE_PREFIX_BYTES
    requires forall k | 0 <= k < |runs| :: key != runs[k].key || prefix != runs[k].prefix
    ensures var o := DecryptFrames(opener, key, prefix, src, 0); o.error.Some? && o.written == []
  {
    OnlyUnderMatters(opener, key, prefix, src, 0);
    UnderNoRun(opener, seal, runs, key, prefix);
    NothingOpensNothing(key, prefix, src, 0);
  }

  /** Either the header is refused, or the rest is read as frames under what the header says. */
  lemma HeaderThenFrames(opener: Opener, src: Bytes, passphrase: string)
    ensures var o := Decrypted(opener, src, passphrase);
            || (o.error.Some? && o.written == [])
            || (|src| >= HEADER_BYTES
                && o == DecryptFrames(opener, KeyRead(src, passphrase), src[43..51], src[51..], 0))
  {
  }

  lemma OfNoRun(opener: Opener, seal: Sealer, runs: seq<Run>, src: Bytes, passphrase: string)
    requires AddsATag(seal) && ToldApart(runs) && SealedByAll(opener, seal, runs)
    requires forall k | 0 <= k < |runs| :: !(Header(runs[k]) <= src && passphrase == runs[k].key.passphrase)
    ensures Decrypted(opener, src, passphrase).error.Some? && Decrypted(opener, src, passphrase).written == []
  {
    HeaderThenFrames(opener, src, passphrase);
    if |src| >= HEADER_BYTES {
      var key, prefix := KeyRead(src, passphrase), src[43..51];
      if k :| 0 <= k < |runs| && key == runs[k].key && prefix == runs[k].prefix {
        HeaderGate(opener, runs[k], src, passphrase);
      } else {
        FramesOfNoRun(opener, seal, runs, key, prefix, src[51..]);
      }
    }
  }

  /** However archives are cut up and put together again, under whatever passphrase: what is written is a
      prefix of the plaintext of the one archive whose header is in front, and success means exactly that
      some whole archive is in front - then its whole plaintext was written - under its own passphrase. */
  lemma NoSpliceOpens(opener: Opener, seal: Sealer, runs: seq<Run>, src: Bytes, passphrase: string)
    requires AddsATag(seal) && ToldApart(runs) && SealedByAll(opener, seal, runs)
    ensures var o := Decrypted(opener, src, passphrase);
            && (forall k | 0 <= k < |runs| && Header(runs[k]) <= src && passphrase == runs[k].key.passphrase ::
                  Authentic(o, Flatten(runs[k].chunks), Archive(seal, runs[k]) <= src))
            && ((forall k | 0 <= k < |runs| :: !(Header(runs[k]) <= src && passphrase == runs[k].key.passphrase)) ==>
                  o.error.Some? && o.written == [])
            && (o.error.None? <==> exists k :: 0 <= k < |runs| && passphrase == runs[k].key.passphrase
                                               && Archive(seal, runs[k]) <= src)
  {
    forall k | 0 <= k < |runs| && Header(runs[k]) <= src && passphrase == runs[k].key.passphrase
      ensures Authentic(Decrypted(opener, src, passphrase), Flatten(runs[k].chunks), Archive(seal, runs[k]) <= src)
    {
      OfOneRun(opener, seal, runs, src, passphrase, k);
    }
    if forall k | 0 <= k < |runs| :: !(Header(runs[k]) <= src && passphrase == runs[k].key.passphrase) {
      OfNoRun(opener, seal, runs, src, passphrase);
    }
    forall k | 0 <= k < |runs| && Archive(seal, runs[k]) <= src ensures Header(runs[k]) <= src {
      PrefixCut(Header(runs[k]), Frames(seal, runs[k], 0), src);
    }
  }

  // ----- The two loops -----

  class Source {
    var rest: Bytes

    /** `plain.read(n)`: any non-empty part of what is left, up to n bytes; empty only at the end. */
    method ReadSome(n: nat) returns (b: Bytes)
      requires n > 0
      modifies this
      ensures old(rest) == b + rest && |b| <= n
      ensures b == [] <==> old(rest) == []
    {
      if rest == [] { return []; }
      var k: nat :| 1 <= k <= n && k <= |rest|;
      b, rest := rest[..k], rest[k..];
    }

    /** `source.read(n)` on a buffered file: n bytes, or all that is left. */
    method Read(n: nat) returns (b: Bytes)
      modifies this
      ensures b == old(rest)[..if n <= |old(rest)| then n else |old(rest)|]
      ensures rest == old(rest)[|b|..]
    {
      var k := if n <= |rest| then n else |rest|;
      b, rest := rest[..k], rest[k..];
    }
  }

  class Sink {
    var written: Bytes

    method Write(b: Bytes)
      modifies this
      ensures written == old(written) + b
    {
      written := written + b;
    }

    method WriteFrame(ciphertext: Bytes)
      requires |ciphertext| < UINT32
      modifies this
      ensures written == old(written) + Frame(ciphertext)
    {
      Write(BigEndian(|ciphertext|));
      Write(ciphertext);
    }
  }

  /** The frames of all chunks but the last, in the order the loop writes them. */
  ghost function FramesBefore(seal: Sealer, run: Run, k: nat): Bytes
    requires AddsATag(seal) && run.Valid() && k < |run.chunks|
  {
    if k == 0 then [] else FramesBefore(seal, run, k - 1) + Frame(run.SealedAt(seal, k - 1).ciphertext)
  }

  lemma {:induction false} FramesBeforeThenFrom(seal: Sealer, run: Run, k: nat)
    requires AddsATag(seal) && run.Valid() && k < |run.chunks|
    ensures Frames(seal, run, 0) == FramesBefore(seal, run, k) + Frames(seal, run, k)
  {
    if k > 0 {
      FramesBeforeThenFrom(seal, run, k - 1);
      Associative(FramesBefore(seal, run, k - 1), Frame(run.SealedAt(seal, k - 1).ciphertext), Frames(seal, run, k));
    } else {
      assert [] + Frames(seal, run, 0) == Frames(seal, run, 0);
    }
  }

  /** A chunk that is not the last is sealed the same whatever follows it. */
  lemma {:induction false} FramesBeforeExtends(seal: Sealer, run: Run, more: Bytes, k: nat)
    requires AddsATag(seal) && run.Valid() && run.(chunks := run.chunks + [more]).Valid()
    requires k < |run.chunks|
    ensures FramesBefore(seal, run.(chunks := run.chunks + [more]), k) == FramesBefore(seal, run, k)
  {
    if k > 0 {
      FramesBeforeExtends(seal, run, more, k - 1);
      assert (run.chunks + [more])[k - 1] == run.chunks[k - 1];
    }
  }

  /** What is written once the last chunk is: the whole run. */
  lemma LastFrame(seal: Sealer, run: Run, index: nat, before: Bytes)
    requires AddsATag(seal) && run.Valid() && index + 1 == |run.chunks|
    ensures before + FramesBefore(seal, run, index)
              + Frame(seal(run.key, Nonce(run.prefix, index), Aad(index, true), run.chunks[index]))
         == before + Frames(seal, run, 0)
  {
    var frame := Frame(run.SealedAt(seal, index).ciphertext);
    FramesBeforeThenFrom(seal, run, index);
    assert Frames(seal, run, index) == frame;
    Associative(before, FramesBefore(seal, run, index), frame);
  }

  /** And once another chunk has turned up: the frames before that one. */
  lemma NextFrame(seal: Sealer, run: Run, more: Bytes, index: nat, before: Bytes)
    requires AddsATag(seal) && run.Valid() && run.(chunks := run.chunks + [more]).Valid()
    requires index + 1 == |run.chunks|
    ensures before + FramesBefore(seal, run, index)
              + Frame(seal(run.key, Nonce(run.prefix, index), Aad(index, false), run.chunks[index]))
         == before + FramesBefore(seal, run.(chunks := run.chunks + [more]), index + 1)
  {
    FramesBeforeExtends(seal, run, more, index);
    Associative(before, FramesBefore(seal, run, index),
                Frame(seal(run.key, Nonce(run.prefix, index), Aad(index, false), run.chunks[index])));
  }

  lemma OneMoreIsValid(run: Run, more: Bytes)
    requires run.Valid() && |more| <= CHUNK_BYTES && |run.chunks| < UINT32
    ensures run.(chunks := run.chunks + [more]).Valid()
  {
  }

  lemma ReadOneMore(chunks: seq<Bytes>, more: Bytes, rest: Bytes)
    ensures Flatten(chunks) + (more + rest) == Flatten(chunks + [more]) + rest
  {
    FlattenSnoc(chunks, more);
    Associative(Flatten(chunks), more, rest);
  }

  lemma {:induction false} FlattenSnoc(chunks: seq<Bytes>, c: Bytes)
    ensures Flatten(chunks + [c]) == Flatten(chunks) + c
  {
    if chunks == [] {
      assert [c][1..] == [];
    } else {
      assert (chunks + [c])[1..] == chunks[1..] + [c];
      FlattenSnoc(chunks[1..], c);
    }
  }

  method WriteHeader(out: Sink, salt: Bytes, prefix: Bytes)
    modifies out
    ensures forall passphrase ::
              out.written == old(out.written)
                          + Header(Run(Key(passphrase, salt, SCRYPT_N, SCRYPT_R, SCRYPT_P), prefix, []))
  {
    out.Write(MAGIC);
    out.Write(BigEndian(SCRYPT_N) + BigEndian(SCRYPT_R) + BigEndian(SCRYPT_P));
    out.Write(salt);
    out.Write(prefix);
  }

  method SealChunk(out: Sink, key: Key, prefix: Bytes, seal: Sealer, index: nat, final: bool, chunk: Bytes)
    requires AddsATag(seal) && index < UINT32 && |chunk| <= CHUNK_BYTES
    modifies out
    ensures |seal(key, Nonce(prefix, index), Aad(index, final), chunk)| < UINT32
    ensures out.written == old(out.written) + Frame(seal(key, Nonce(prefix, index), Aad(index, final), chunk))
  {
    out.WriteFrame(seal(key, Nonce(prefix, index), Aad(index, final), chunk));
  }

  /** Where the loop stands before it reads ahead: the chunks read so far, all but the last written. */
  ghost predicate Midway(seal: Sealer, run: Run, index: nat, whole: Bytes, rest: Bytes, before: Bytes, written: Bytes)
    requires AddsATag(seal)
  {
    && run.Valid() && |run.chunks| == index + 1
    && Flatten(run.chunks) + rest == whole
    && (if run.chunks[index] == [] then rest == [] else index < |Flatten(run.chunks)|)
    && written == before + FramesBefore(seal, run, index)
  }

  lemma MidwayStart(seal: Sealer, run: Run, whole: Bytes, rest: Bytes, before: Bytes)
    requires AddsATag(seal) && run.Valid() && |run.chunks| == 1
    requires whole == run.chunks[0] + rest && (run.chunks[0] == [] <==> whole == [])
    ensures Midway(seal, run, 0, whole, rest, before, before)
  {
    assert run.chunks == [run.chunks[0]];
    assert Flatten(run.chunks) == run.chunks[0];
  }

  lemma MidwayNext(seal: Sealer, run: Run, index: nat, whole: Bytes, more: Bytes, rest: Bytes, before: Bytes,
                   written: Bytes)
    requires AddsATag(seal) && Midway(seal, run, index, whole, more + rest, before, written)
    requires 0 < |more| <= CHUNK_BYTES && index + 1 < UINT32
    ensures Midway(seal, run.(chunks := run.chunks + [more]), index + 1, whole, rest, before,
                   written + Frame(seal(run.key, Nonce(run.prefix, index), Aad(index, false), run.chunks[index])))
  {
    OneMoreIsValid(run, more);
    FlattenSnoc(run.chunks, more);
    ReadOneMore(run.chunks, more, rest);
    NextFrame(seal, run, more, index, before);
  }

  /** The encrypting loop, with its one chunk of lookahead. */
  method EncryptChunks(plain: Source, out: Sink, key: Key, prefix: Bytes, seal: Sealer)
    returns (raised: Option<Error>, ghost run: Run)
    requires Run(key, prefix, [[]]).Valid() && AddsATag(seal)
    modifies plain, out
    ensures run.Valid() && run.key == key && run.prefix == prefix
    ensures raised.None? ==>
              && Flatten(run.chunks) == old(plain.rest) && plain.rest == []
              && out.written == old(out.written) + Frames(seal, run, 0)
    ensures raised.Some? ==> raised.value == IndexOverflow && |old(plain.rest)| > UINT32
  {
    var index := 0;
    var pending := plain.ReadSome(CHUNK_BYTES);
    run := Run(key, prefix, [pending]);
    MidwayStart(seal, run, old(plain.rest), plain.rest, old(out.written));
    while true
      invariant 0 <= index < UINT32 && run.key == key && run.prefix == prefix
      invariant Midway(seal, run, index, old(plain.rest), plain.rest, old(out.written), out.written)
      invariant run.chunks[index] == pending
      decreases |plain.rest|
    {
      var lookahead := plain.ReadSome(CHUNK_BYTES);
      var final := lookahead == [];
      ghost var before := out.written;
      SealChunk(out, key, prefix, seal, index, final, pending);
      if final {
        LastFrame(seal, run, index, old(out.written));
        return None, run;
      }
      if index + 1 == UINT32 { return Some(IndexOverflow), run; }
      MidwayNext(seal, run, index, old(plain.rest), lookahead, plain.rest, old(out.written), before);
      run := run.(chunks := run.chunks + [lookahead]);
      pending := lookahead;
      index := index + 1;
    }
  }

  /** For every sequence of short reads the archive written is the archive of the chunks read, and
      those make up the whole plaintext. It fails only without a passphrase, or past 2^32 chunks. */
  method Encrypt(plain: Source, out: Sink, passphrase: string, salt: Bytes, prefix: Bytes, seal: Sealer)
    returns (raised: Option<Error>, ghost run: Run)
    requires |salt| == SALT_BYTES && |prefix| == NONCE_PREFIX_BYTES && AddsATag(seal)
    modifies plain, out
    ensures raised == Some(PassphraseRequired) <==> passphrase == ""
    ensures passphrase == "" ==> out.written == old(out.written) && plain.rest == old(plain.rest)
    ensures run.key == Key(passphrase, salt, SCRYPT_N, SCRYPT_R, SCRYPT_P) && run.prefix == prefix
    ensures raised.None? ==>
              && run.Valid() && Flatten(run.chunks) == old(plain.rest) && plain.rest == []
              && out.written == old(out.written) + Archive(seal, run)
    ensures raised.Some? && passphrase != "" ==> raised.value == IndexOverflow && |old(plain.rest)| > UINT32
  {
    var key := Key(passphrase, salt, SCRYPT_N, SCRYPT_R, SCRYPT_P);
    if passphrase == "" { return Some(PassphraseRequired), Run(key, prefix, []); }
    OurCostIsReasonable();
    WriteHeader(out, salt, prefix);
    raised, run := EncryptChunks(plain, out, key, prefix, seal);
    if raised.None? {
      Associative(old(out.written), Header(run), Frames(seal, run, 0));
    }
  }

  /** The decrypting loop. */
  method DecryptChunks(source: Source, out: Sink, key: Key, prefix: Bytes, opener: Opener)
    returns (raised: Option<Error>)
    modifies source, out
    ensures raised == DecryptFrames(opener, key, prefix, old(source.rest), 0).error
    ensures out.written == old(out.written) + DecryptFrames(opener, key, prefix, old(source.rest), 0).written
  {
    ghost var goal := DecryptFrames(opener, key, prefix, source.rest, 0);
    var index := 0;
    ghost var done: Bytes := [];
    while true
      invariant out.written == old(out.written) + done
      invariant var o := DecryptFrames(opener, key, prefix, source.rest, index);
                goal == o.(written := done + o.written)
      decreases |source.rest|
    {
      ghost var here := source.rest;
      var rawLength := source.Read(4);
      if rawLength == [] { return Some(MissingFinalChunk); }
      if |rawLength| != 4 { return Some(IncompleteLength); }
      var size := FromBigEndian(rawLength);
      if size > CHUNK_BYTES + GCM_TAG_BYTES { return Some(ChunkTooLarge); }
      var sealed := source.Read(size);
      if |sealed| != size { return Some(IncompleteChunk); }
      if index >= UINT32 { return Some(IndexOverflow); }
      assert sealed == here[4..4 + size] && source.rest == here[4 + size..];
      var nonce := Nonce(prefix, index);
      var unsealed := Open(opener, key, nonce, Aad(index, true), sealed);
      if unsealed.Some? {
        out.Write(unsealed.value);
        return None;
      }
      unsealed := Open(opener, key, nonce, Aad(index, false), sealed);
      if unsealed.None? { return Some(BadTag); }
      out.Write(unsealed.value);
      ghost var rest := DecryptFrames(opener, key, prefix, source.rest, index + 1);
      Associative(done, unsealed.value, rest.written);
      Associative(old(out.written), done, unsealed.value);
      done := done + unsealed.value;
      index := index + 1;
    }
  }

  lemma CostFields(src: Bytes, header: Bytes)
    requires |src| >= 27 && header == src[15..][..12]
    ensures header[..4] == src[15..19] && header[4..8] == src[19..23] && header[8..] == src[23..27]
  {
    assert header == src[15..27];
    SliceOfSlice(src, 15, 27, 0, 4);
    SliceOfSlice(src, 15, 27, 4, 8);
    SliceOfSlice(src, 15, 27, 8, 12);
    assert header[..4] == header[0..4] && header[8..] == header[8..12];
  }

  lemma SliceOfSlice(s: Bytes, a: nat, b: nat, i: nat, j: nat)
    requires a <= b <= |s| && i <= j <= b - a
    ensures s[a..b][i..j] == s[a + i..a + j]
  {
    forall k | 0 <= k < j - i ensures s[a..b][i..j][k] == s[a + i..a + j][k] {
      assert s[a..b][i + k] == s[a + i + k];
    }
  }

  /** `decrypt` raises what `Decrypted` says and appends to the output what that says. */
  method Decrypt(source: Source, out: Sink, passphrase: string, opener: Opener) returns (raised: Option<Error>)
    modifies source, out
    ensures raised == Decrypted(opener, old(source.rest), passphrase).error
    ensures out.written == old(out.written) + Decrypted(opener, old(source.rest), passphrase).written
  {
    ghost var src := source.rest;
    var magic := source.Read(|MAGIC|);
    if magic != MAGIC { return Some(NotOurs); }
    assert source.rest == src[15..];
    var header := source.Read(12);
    if |header| != 12 { return Some(TruncatedHeader); }
    CostFields(src, header);
    var n, r, p := FromBigEndian(header[..4]), FromBigEndian(header[4..8]), FromBigEndian(header[8..]);
    if !(MIN_SCRYPT_N <= n <= MAX_SCRYPT_N && PowerOfTwo(n)) { return Some(UnreasonableCost); }
    if !(1 <= r <= 32) || !(1 <= p <= 16) { return Some(UnreasonableParameters); }
    var salt := source.Read(SALT_BYTES);
    var prefix := source.Read(NONCE_PREFIX_BYTES);
    if |salt| != SALT_BYTES || |prefix| != NONCE_PREFIX_BYTES { return Some(TruncatedHeader); }
    assert salt == src[27..43] && prefix == src[43..51] && source.rest == src[51..];
    raised := DecryptChunks(source, out, Key(passphrase, salt, n, r, p), prefix, opener);
  }
}
