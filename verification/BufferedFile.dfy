/** A file written through a buffer in the process, at an offset kept by the process. */
module BufferedFile {

  function Padded<T>(file: seq<T>, n: nat, hole: T): (r: seq<T>)
    ensures |r| >= n && file <= r
  {
    if |file| >= n then file else file + seq(n - |file|, _ => hole)
  }

  /** write() at an offset: overwrites what is there, leaves a hole before it if the file is short. */
  function WriteAt<T>(file: seq<T>, pos: nat, data: seq<T>, hole: T): seq<T> {
    var f := Padded(file, pos + |data|, hole);
    f[..pos] + data + f[pos + |data|..]
  }

  /** Writing at the end of a file appends. */
  lemma WriteAtEnd<T>(file: seq<T>, data: seq<T>, hole: T)
    ensures WriteAt(file, |file|, data, hole) == file + data
  {
  }

  /** Flushing a part of the buffer changes nothing in what file and buffer add up to. */
  lemma Regroup<T>(file: seq<T>, buf: seq<T>, k: nat, rest: seq<T>)
    requires k <= |buf|
    ensures (file + buf[..k]) + buf[k..] + rest == file + buf + rest
  {}
}
