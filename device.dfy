/**
 * `Device`: a connection to a video device and the checks `Stream` makes
 * before it starts capturing. The operating system's answers (the result of
 * opening the device file, the error number of each control call) are
 * parameters.
 */
module V4lDevice {
  import opened Wrappers
  import opened Layout
  import opened VideoDev2
  import opened V4l

  /** An open device file, identified by its descriptor. */
  datatype File = File(fd: nat)

  datatype Error =
    | OpenFailed(path: string, errno: nat)  // os.Open's *PathError
    | AlreadyRunning                        // "A stream is already running on this device."
    | NotOpen                               // "Device is not open."
    | FormatNotSupported                    // "Frame format not supported."
    | IoctlFailed(errno: nat)               // os.NewSyscallError("ioctl", errno)

  /** A control call issued on a descriptor. */
  datatype IoctlCall =
    | SetFormat(fd: nat, request: nat, payload: seq<byte>)  // setFormat
    | SetUserptr(fd: nat)                                   // setUserptr (REQBUFS, user pointers)

  /** The channel `Stream` returns, with what its capture loop works from:
   *  one slot, the image bounds, the subsampling and the frame size. */
  datatype Channel = Channel(capacity: nat, rect: Rectangle, subsample: SubsampleRatio, imageSize: int)

  /** `ioctl`: a non-zero error number is reported as an error. */
  function IoctlResult(errno: nat): (r: Option<Error>)
    ensures r.None? <==> errno == 0
    ensures r.Some? ==> r.value == IoctlFailed(errno)
  {
    if errno != 0 then Some(IoctlFailed(errno)) else None
  }

  class Device {
    const path: string
    var f: Option<File>
    var ch: Option<Channel>
    /** The control calls issued on this device so far. */
    ghost var ioctls: seq<IoctlCall>

    constructor (path: string, f: Option<File>)
      ensures this.path == path && this.f == f && ch == None && ioctls == []
    {
      this.path := path;
      this.f := f;
      ch := None;
      ioctls := [];
    }

    /** `Open`: a device is returned whether or not opening its file succeeded;
     *  on failure it has no file and the error is returned beside it. */
    static method Open(path: string, outcome: Result<File, nat>) returns (dev: Device, err: Option<Error>)
      ensures fresh(dev) && dev.path == path && dev.ch == None && dev.ioctls == []
      ensures outcome.Success? ==> dev.f == Some(outcome.value) && err == None
      ensures outcome.Failure? ==> dev.f == None && err == Some(OpenFailed(path, outcome.error))
    {
      match outcome
      case Success(file) =>
        dev := new Device(path, Some(file));
        err := None;
      case Failure(errno) =>
        dev := new Device(path, None);
        err := Some(OpenFailed(path, errno));
    }

    /** `Close`: forgets the file but not the stream channel. */
    method Close()
      modifies this
      ensures f == None && ch == old(ch) && ioctls == old(ioctls)
    {
      f := None;
    }

    /** `Stream`, given the error numbers the set-format and request-buffers
     *  calls would return. Checks run in order: a running stream, an open
     *  file, a supported format; then the two control calls. The channel is
     *  set only when both calls succeed, and nothing else ever changes it. */
    method Stream(ff: FrameFormat, setFormatErrno: nat, setUserptrErrno: nat)
      returns (r: Result<Channel, Error>)
      modifies this
      ensures f == old(f)
      ensures old(ch).Some? ==> r == Failure(AlreadyRunning) && ch == old(ch) && ioctls == old(ioctls)
      ensures old(ch).None? && old(f).None? ==>
                r == Failure(NotOpen) && ch == None && ioctls == old(ioctls)
      ensures old(ch).None? && old(f).Some? && LookupInfo(ff.format).None? ==>
                r == Failure(FormatNotSupported) && ch == None && ioctls == old(ioctls)
      ensures old(ch).None? && old(f).Some? && LookupInfo(ff.format).Some? ==>
                var fd := old(f).value.fd;
                var setFormat := SetFormat(fd, VidiocSFmt, Req(ff));
                if setFormatErrno != 0 then
                  r == Failure(IoctlFailed(setFormatErrno)) && ch == None &&
                  ioctls == old(ioctls) + [setFormat]
                else if setUserptrErrno != 0 then
                  r == Failure(IoctlFailed(setUserptrErrno)) && ch == None &&
                  ioctls == old(ioctls) + [setFormat, SetUserptr(fd)]
                else
                  var info := LookupInfo(ff.format).value;
                  r == Success(Channel(1, FrameRect(ff), info.subsample, ImageSize(info, ff))) &&
                  ch == Some(r.value) && ioctls == old(ioctls) + [setFormat, SetUserptr(fd)]
      ensures r.Success? <==>
                old(ch).None? && old(f).Some? && ff.format == PixFmtUYVY &&
                setFormatErrno == 0 && setUserptrErrno == 0
      ensures r.Failure? ==> ch == old(ch)
    {
      if ch.Some? {
        return Failure(AlreadyRunning);
      }
      if f.None? {
        return Failure(NotOpen);
      }
      var rect := FrameRect(ff);
      var info := LookupInfo(ff.format);
      if info.None? {
        return Failure(FormatNotSupported);
      }
      var imageSize := ImageSize(info.value, ff);

      var err := SetFormatCall(ff, setFormatErrno);
      if err.Some? {
        return Failure(err.value);
      }
      err := SetUserptrCall(setUserptrErrno);
      if err.Some? {
        return Failure(err.value);
      }

      ch := Some(Channel(1, rect, info.value.subsample, imageSize));
      return Success(ch.value);
    }

    /** `setFormat`: the set-format call with the payload of `req()`. */
    method SetFormatCall(ff: FrameFormat, errno: nat) returns (err: Option<Error>)
      requires f.Some?
      modifies this`ioctls
      ensures ioctls == old(ioctls) + [SetFormat(f.value.fd, VidiocSFmt, Req(ff))]
      ensures err == IoctlResult(errno)
    {
      ioctls := ioctls + [SetFormat(f.value.fd, VidiocSFmt, Req(ff))];
      err := IoctlResult(errno);
    }

    /** `setUserptr`: the request-buffers call announcing user-pointer buffers. */
    method SetUserptrCall(errno: nat) returns (err: Option<Error>)
      requires f.Some?
      modifies this`ioctls
      ensures ioctls == old(ioctls) + [SetUserptr(f.value.fd)]
      ensures err == IoctlResult(errno)
    {
      ioctls := ioctls + [SetUserptr(f.value.fd)];
      err := IoctlResult(errno);
    }
  }

  /** A device admits one stream in its lifetime: after a stream has started,
   *  a second `Stream`, even after `Close`, reports that one is running. */
  method StreamCloseStream(path: string, fd: nat, ff: FrameFormat)
    returns (first: Result<Channel, Error>, again: Result<Channel, Error>, afterClose: Result<Channel, Error>)
    requires ff.format == PixFmtUYVY
    ensures first.Success? && first.value.capacity == 1
    ensures again == Failure(AlreadyRunning) && afterClose == Failure(AlreadyRunning)
  {
    var dev, _ := Device.Open(path, Success(File(fd)));
    first := dev.Stream(ff, 0, 0);
    again := dev.Stream(ff, 0, 0);
    dev.Close();
    afterClose := dev.Stream(ff, 0, 0);
  }

  /** A failed set-format call leaves the device able to try again. */
  method RetryAfterSetFormatError(path: string, fd: nat, ff: FrameFormat, errno: nat)
    returns (first: Result<Channel, Error>, second: Result<Channel, Error>)
    requires ff.format == PixFmtUYVY && errno != 0
    ensures first == Failure(IoctlFailed(errno))
    ensures second.Success?
  {
    var dev, _ := Device.Open(path, Success(File(fd)));
    first := dev.Stream(ff, errno, 0);
    second := dev.Stream(ff, 0, 0);
  }

  /** A device whose file could not be opened reports it is not open. */
  method StreamUnopened(path: string, errno: nat, ff: FrameFormat)
    returns (err: Option<Error>, r: Result<Channel, Error>)
    ensures err == Some(OpenFailed(path, errno))
    ensures r == Failure(NotOpen)
  {
    var dev;
    dev, err := Device.Open(path, Failure(errno));
    r := dev.Stream(ff, 0, 0);
  }
}
