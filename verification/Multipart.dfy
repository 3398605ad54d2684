/** Splitting a file into the parts of a multipart upload, read through a reader that may return less than
    it was asked for. */
module Multipart {
  import opened Wrappers

  type Byte = bv8

  const PART_SIZE: nat := 8 * 1024 * 1024

  datatype Part = Part(number: nat, body: seq<Byte>)

  function Bodies(parts: seq<Part>): (r: seq<Byte>) {
    if parts == [] then [] else Bodies(parts[..|parts| - 1]) + parts[|parts| - 1].body
  }

  /** Every part but the last is full, which is 8 MiB, and no part is empty or over-full. */
  predicate FullUntilLast(parts: seq<Part>) {
    && (forall i :: 0 <= i < |parts| - 1 ==> |parts[i].body| == 8_388_608)
    && (parts != [] ==> 0 < |parts[|parts| - 1].body| <= 8_388_608)
  }

  predicate AllFull(parts: seq<Part>) {
    forall i :: 0 <= i < |parts| ==> |parts[i].body| == PART_SIZE
  }

  predicate Numbered(parts: seq<Part>) {
    forall i :: 0 <= i < |parts| ==> parts[i].number == i + 1
  }

  lemma {:induction false} BodiesSnoc(parts: seq<Part>, part: Part)
    ensures Bodies(parts + [part]) == Bodies(parts) + part.body
  {
    assert (parts + [part])[..|parts|] == parts;
  }

  /** An open file. A read may be short, but is empty only at the end of the file. */
  class FileReader {
    const data: seq<Byte>
    var position: nat

    predicate Valid()
      reads this
    {
      position <= |data|
    }

    constructor (data: seq<Byte>)
      ensures Valid() && this.data == data && position == 0
    {
      this.data := data;
      position := 0;
    }

    method Read(buffer: array<Byte>, from: nat) returns (n: nat)
      requires Valid() && from <= buffer.Length
      modifies this`position, buffer
      ensures Valid() && old(position) + n == position && from + n <= buffer.Length
      ensures n == 0 <==> from == buffer.Length || old(position) == |data|
      ensures buffer[..from] == old(buffer[..from])
      ensures buffer[from..from + n] == data[old(position)..position]
    {
      var most := if buffer.Length - from <= |data| - position then buffer.Length - from else |data| - position;
      n :| 0 <= n <= most && (n == 0 <==> most == 0);
      forall i | 0 <= i < n {
        buffer[from + i] := data[position + i];
      }
      position := position + n;
    }
  }

  /** The inner loop: the buffer fills up unless the file ends first. */
  method FillChunk(file: FileReader, chunkSize: nat) returns (body: seq<Byte>)
    requires file.Valid()
    modifies file`position
    ensures file.Valid()
    ensures file.position == if chunkSize <= |file.data| - old(file.position)
                             then old(file.position) + chunkSize else |file.data|
    ensures body == file.data[old(file.position)..file.position]
  {
    var buffer := new Byte[chunkSize];
    var read := 0;
    while read < chunkSize
      invariant file.Valid() && fresh(buffer)
      invariant read <= chunkSize && old(file.position) + read == file.position
      invariant buffer[..read] == file.data[old(file.position)..file.position]
      decreases chunkSize - read
    {
      ghost var done, at := buffer[..read], file.position;
      var n := file.Read(buffer, read);
      if n == 0 {
        break;
      }
      assert buffer[..read] == done;
      assert buffer[..read + n] == buffer[..read] + buffer[read..read + n];
      assert file.data[old(file.position)..file.position]
          == file.data[old(file.position)..at] + file.data[at..file.position];
      read := read + n;
    }
    body := buffer[..read];
  }

  /** Where the outer loop is: bytes it still expects, and the file's position. */
  datatype Progress = Progress(remaining: nat, position: nat)

  function Smaller(a: nat, b: nat): (r: nat) {
    if a <= b then a else b
  }

  /** One turn of the outer loop over a file of `length` bytes. */
  function Turn(length: nat, p: Progress): (r: Progress)
    requires p.position <= length
    ensures r.position <= length
  {
    var got := Smaller(Smaller(p.remaining, PART_SIZE), length - p.position);
    Progress(p.remaining - got, p.position + got)
  }

  /** One turn of the outer loop, whatever the file still holds: the part takes the next bytes. */
  method UploadPart(file: FileReader, partNumber: nat, remaining: nat) returns (part: Part, left: nat)
    requires file.Valid()
    modifies file`position
    ensures file.Valid()
    ensures Progress(left, file.position) == Turn(|file.data|, Progress(remaining, old(file.position)))
    ensures part == Part(partNumber, file.data[old(file.position)..file.position])
  {
    var chunkSize := Smaller(remaining, PART_SIZE);
    var body := FillChunk(file, chunkSize);
    part, left := Part(partNumber, body), remaining - |body|;
  }

  /** As many parts as it takes for so many bytes. */
  function PartCount(size: nat): nat {
    (size + PART_SIZE - 1) / PART_SIZE
  }

  /** Is a part up to this number refused, or does its reading fail? `refused` is the first such part. */
  predicate RefusedBy(refused: Option<nat>, number: nat) {
    refused.Some? && 1 <= refused.value <= number
  }

  /** Between two turns of the outer loop: the parts so far are the bytes so far, in full parts but for a
      last one that ends the file's announced size. */
  ghost predicate Assembled(data: seq<Byte>, size: nat, position: nat, parts: seq<Part>, remaining: nat) {
    && position + remaining == size && position <= |data|
    && Bodies(parts) == data[..position]
    && Numbered(parts) && FullUntilLast(parts)
    && (remaining > 0 ==> position == |parts| * PART_SIZE && AllFull(parts))
    && (remaining == 0 ==> |parts| == PartCount(size))
  }

  lemma AssembleOneMore(data: seq<Byte>, size: nat, position: nat, parts: seq<Part>, remaining: nat, next: nat,
                        part: Part)
    requires Assembled(data, size, position, parts, remaining) && remaining > 0 && size <= |data|
    requires next == position + Smaller(remaining, PART_SIZE)
    requires part == Part(|parts| + 1, data[position..next])
    ensures Assembled(data, size, next, parts + [part], size - next)
  {
    assert data[..position] + part.body == data[..next];
    BodiesSnoc(parts, part);
  }

  /** Reassembly: for every pattern of short reads from a file of at least the announced size the parts put
      together are its first `size` bytes, in order, numbered from one without a gap, and as few as can be,
      unless one of them is refused, which is then what is reported. From a shorter file parts are sent
      until one is refused. */
  method UploadParts(file: FileReader, size: nat, refused: Option<nat>) returns (result: Result<seq<Part>, nat>)
    requires file.Valid() && file.position == 0
    requires size <= |file.data| || (refused.Some? && refused.value >= 1)
    modifies file`position
    ensures file.Valid()
    ensures result.Ok? <==> size <= |file.data| && !RefusedBy(refused, PartCount(size))
    ensures result.Err? ==> refused == Some(result.error)
    ensures result.Ok? ==>
              var parts := result.value;
              && Bodies(parts) == file.data[..size]
              && Numbered(parts) && FullUntilLast(parts) && |parts| == PartCount(size)
              && file.position == size
  {
    var parts: seq<Part> := [];
    var partNumber: nat, remaining: nat := 1, size;
    while remaining > 0
      invariant file.Valid() && partNumber == |parts| + 1 && !RefusedBy(refused, |parts|)
      invariant size <= |file.data| ==> Assembled(file.data, size, file.position, parts, remaining)
      invariant file.position + remaining == size
      decreases if size <= |file.data| then remaining else refused.value - |parts|
    {
      ghost var at := file.position;
      var part, left := UploadPart(file, partNumber, remaining);
      if refused == Some(partNumber) {
        if size <= |file.data| {
          FewPartsSoFar(file.data, size, at, parts, remaining);
        }
        return Err(partNumber);
      }
      if size <= |file.data| {
        AssembleOneMore(file.data, size, at, parts, remaining, file.position, part);
      }
      parts, partNumber, remaining := parts + [part], partNumber + 1, left;
    }
    result := Ok(parts);
  }

  lemma FewPartsSoFar(data: seq<Byte>, size: nat, position: nat, parts: seq<Part>, remaining: nat)
    requires Assembled(data, size, position, parts, remaining) && remaining > 0
    ensures |parts| + 1 <= PartCount(size)
  {
  }

  // ----- A file shorter than announced -----

  function Turns(length: nat, p: Progress, count: nat): (r: Progress)
    requires p.position <= length
    ensures r.position <= length
    decreases count
  {
    if count == 0 then p else Turns(length, Turn(length, p), count - 1)
  }

  /** A turn never loses track of the shortfall, so with one the bytes expected never run out. */
  lemma {:induction false} TurnsKeepBalance(length: nat, p: Progress, count: nat)
    requires p.position <= length
    ensures var r := Turns(length, p, count); r.remaining + r.position == p.remaining + p.position
    decreases count
  {
    if count > 0 {
      TurnsKeepBalance(length, Turn(length, p), count - 1);
    }
  }

  /** With enough bytes left, one turn a byte is more than enough. */
  lemma {:induction false} EnoughTurns(length: nat, p: Progress, count: nat)
    requires p.position + p.remaining <= length && p.remaining <= count
    ensures Turns(length, p, count).remaining == 0
    decreases count
  {
    if count > 0 {
      EnoughTurns(length, Turn(length, p), count - 1);
    }
  }

  /** The loop has ended after `count` turns: nothing remains, or a part sent in one of them was refused. */
  predicate Ended(length: nat, size: nat, refused: Option<nat>, count: nat) {
    || Turns(length, Progress(size, 0), count).remaining == 0
    || (RefusedBy(refused, count) && Turns(length, Progress(size, 0), refused.value - 1).remaining > 0)
  }

  /** The outer loop ends with every part accepted exactly when the file is at least as long as its
      announced size and no part is refused; over a file that shrank it goes on uploading empty parts, and
      ends only if one is refused. */
  lemma EndsIffLongEnough(length: nat, size: nat, refused: Option<nat>)
    ensures (exists count: nat :: Ended(length, size, refused, count))
            <==> size <= length || (refused.Some? && refused.value >= 1)
    ensures (exists count: nat :: Turns(length, Progress(size, 0), count).remaining == 0) <==> size <= length
  {
    if size <= length {
      EnoughTurns(length, Progress(size, 0), size);
      assert Ended(length, size, refused, size);
    } else if refused.Some? && refused.value >= 1 {
      TurnsKeepBalance(length, Progress(size, 0), refused.value - 1);
      assert Ended(length, size, refused, refused.value);
    }
    forall count: nat
      ensures Turns(length, Progress(size, 0), count).remaining == 0 ==> size <= length
    {
      TurnsKeepBalance(length, Progress(size, 0), count);
    }
  }
}
