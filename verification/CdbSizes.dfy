// The sizes that sxe_cdb_instance_put_val computes: lengths and sizes are kept in 32
// bits, growth is computed in 64, and no sum is found out when it does not fit.
module CdbSizes {
  import opened CdbRecord
  import opened CdbLog

  /**
   * What storing a record leaves: the bytes that are mapped, and the fields kvdata_size and
   * kvdata_used.  Refused is the early out for a wrap.
   */
  datatype Sizes = Refused | Sizes(mapped: nat, size: nat, used: nat)

  /** Line by line: the sum of the lengths is 32 bits wide, the grown size 64, and the fields 32. */
  function AfterPut(size: nat, used: nat, keyLen: nat, valLen: nat): Sizes
    requires used <= size < U32
  {
    var want := Length(keyLen, valLen) % U32;
    if want > size - used then
      var more := (want + (KERNEL_PAGE - 1)) / KERNEL_PAGE * KERNEL_PAGE + KERNEL_PAGE;
      if size + more < size then Refused
      else Sizes(size + more, (size + more) % U32, (used + want) % U32)
    else
      Sizes(size, size, (used + want) % U32)
  }

  /** The record is within the mapped bytes, the next one goes right behind it, and that is within the size. */
  predicate Right(size: nat, used: nat, keyLen: nat, valLen: nat)
    requires used <= size < U32
  {
    var s := AfterPut(size, used, keyLen, valLen);
    && s.Sizes?
    && used + Length(keyLen, valLen) <= s.mapped
    && s.used == used + Length(keyLen, valLen) <= s.size
  }

  /** The memory that the record calls for is less than 4 GB. */
  predicate Fits(size: nat, used: nat, keyLen: nat, valLen: nat)
    requires used <= size
  {
    GrownSize(size, used, Length(keyLen, valLen)) < U32
  }

  /** The early out for a wrap is never taken, whatever the sizes and lengths. */
  lemma {:induction false} WrapTestNeverFires(size: nat, used: nat, keyLen: nat, valLen: nat)
    requires used <= size < U32
    ensures AfterPut(size, used, keyLen, valLen).Sizes?
  {
  }

  lemma {:induction false} Pages(want: nat)
    ensures var up := (want + (KERNEL_PAGE - 1)) / KERNEL_PAGE * KERNEL_PAGE;
            want <= up < want + KERNEL_PAGE && up % KERNEL_PAGE == 0
  {
  }

  lemma {:induction false} RightFits(size: nat, used: nat, keyLen: nat, valLen: nat)
    requires used <= size < U32 && size % KERNEL_PAGE == 0 && Right(size, used, keyLen, valLen)
    ensures Fits(size, used, keyLen, valLen)
  {
    hide HeaderLen;
    var len := Length(keyLen, valLen);
    assert used + len < U32;
    assert len % U32 == len;
    if len > size - used { WrappedSize(size, used, len); }
  }

  lemma {:induction false} Small(n: nat)
    requires n < U32
    ensures n % U32 == n
  {
  }

  lemma {:induction false} WholePages(size: nat, pages: nat)
    requires size % KERNEL_PAGE == 0
    ensures (size + pages * KERNEL_PAGE + KERNEL_PAGE) % KERNEL_PAGE == 0
  {
    assert size + pages * KERNEL_PAGE + KERNEL_PAGE == (size / KERNEL_PAGE + pages + 1) * KERNEL_PAGE;
  }

  /** As long as less than 4 GB are called for, the sizes are the true ones, in whole pages. */
  lemma {:induction false} SizesThatFit(size: nat, used: nat, keyLen: nat, valLen: nat)
    requires used <= size < U32 && Fits(size, used, keyLen, valLen)
    ensures var len := Length(keyLen, valLen);
            var grown := GrownSize(size, used, len);
            && used + len <= grown && AfterPut(size, used, keyLen, valLen) == Sizes(grown, grown, used + len)
            && (size % KERNEL_PAGE == 0 ==> grown % KERNEL_PAGE == 0)
  {
    hide HeaderLen, Length;
    var len := Length(keyLen, valLen);
    Pages(len);
    assert len % U32 == len by { GrownSizeFits(size, used, len); Small(len); }
    if len > size - used {
      if size % KERNEL_PAGE == 0 { WholePages(size, (len + (KERNEL_PAGE - 1)) / KERNEL_PAGE); }
      Small(GrownSize(size, used, len));
    }
    Small(used + len);
  }

  /** Storing a record leaves memory and fields right if and only if the memory it calls for is less than 4 GB. */
  lemma {:induction false} RightIffFits(size: nat, used: nat, keyLen: nat, valLen: nat)
    requires used <= size < U32 && size % KERNEL_PAGE == 0
    ensures Right(size, used, keyLen, valLen) <==> Fits(size, used, keyLen, valLen)
  {
    if Right(size, used, keyLen, valLen) { RightFits(size, used, keyLen, valLen); }
    if Fits(size, used, keyLen, valLen) { SizesThatFit(size, used, keyLen, valLen); }
  }

  /** A size that wraps is below what is used. */
  lemma {:induction false} WrappedSize(size: nat, used: nat, len: nat)
    requires used <= size < U32 && size % KERNEL_PAGE == 0 && size - used < len && used + len < U32
    ensures var more := (len + (KERNEL_PAGE - 1)) / KERNEL_PAGE * KERNEL_PAGE + KERNEL_PAGE;
            size + more >= U32 ==> (size + more) % U32 < used + len
  {
    Pages(len);
  }

  // ---------------------------------------------------------------- where the sums wrap

  /**
   * A new instance and a value of 2^32 - 1 bytes: the sum of the lengths wraps to 8, the
   * memory is not grown, and the record runs 4 GB past its end.
   */
  lemma {:induction false} LengthWraps()
    ensures var s := AfterPut(4096, 1, 1, 0xffff_ffff);
            && Length(1, 0xffff_ffff) % U32 == 8
            && s == Sizes(4096, 4096, 9) && 1 + Length(1, 0xffff_ffff) > s.mapped
            && !Right(4096, 1, 1, 0xffff_ffff)
  {
  }

  /** Near 4 GB: the record fits in what is mapped, but the size field wraps to less than what is used. */
  lemma {:induction false} SizeWraps()
    ensures var s := AfterPut(0xffff_f000, 0xffff_e000, 1, 0x17f0);
            && s == Sizes(0x1_0000_2000, 0x2000, 0xffff_f7f4)
            && 0xffff_e000 + Length(1, 0x17f0) <= s.mapped && s.used > s.size
            && !Right(0xffff_f000, 0xffff_e000, 1, 0x17f0)
  {
  }

  /** Both fields wrap and look right to one another: the next record is written over the first ones. */
  lemma {:induction false} UsedWraps()
    ensures var s := AfterPut(0xffff_f000, 0xffff_f000, 1, 0x1000);
            && s == Sizes(0x1_0000_2000, 0x2000, 4)
            && 0xffff_f000 + Length(1, 0x1000) <= s.mapped && s.used <= s.size
            && !Right(0xffff_f000, 0xffff_f000, 1, 0x1000)
  {
  }
}
