/**
 The updater as it runs in the bootloader: statics updated in place, the page
 buffer and the flash driver. Every method does one step of the protocol in
 module Firmware.
 */
module FirmwareUpdater {
  import opened Bytes
  import opened FlashMemory
  import opened Firmware

  class FileUpdater {
    const base: nat            // start of the application area
    const flash: Flash
    const buffer: array<byte>  // firmware_buffer

    var requestPtr: nat
    var pending: bool
    var eof: bool
    var bufferPtr: nat
    var writeOffset: nat

    var updating: bool         // FirmwareUpdate
    var server: byte           // bootloader_interface.request_from_node_id
    var path: seq<byte>        // bootloader_interface.request_file_name
    var sent: seq<Read>        // the requests of this update handed to the transmit queue

    ghost function State(): Updater
      reads this, buffer
    {
      Updater(requestPtr, pending, eof, buffer[..], bufferPtr, writeOffset)
    }

    ghost function View(wire: Option<Read>, last: Status): Sys
      reads this, buffer, flash.cells
    {
      Sys(updating, server, path, State(), flash.cells[..], wire, sent, last)
    }

    ghost predicate Valid()
      reads this, buffer, flash, flash.cells
    {
      flash.Valid() && buffer != flash.cells && buffer.Length == PAGE_SIZE && Shape(State())
    }

    /** The block at hand lies in the flash, and a scan before an erase does not leave it. */
    ghost predicate InFlash()
      reads this, buffer, flash, flash.cells
    {
      && Writable(base, flash.cells[..], State())
      && (WritesPage(State()) && !Matches(flash.cells[..], base + writeOffset, buffer[..], bufferPtr) ==>
          ScanInBounds(flash.cells[..], PageStart(base + writeOffset)))
    }

    constructor (base: nat, flash: Flash)
      requires flash.Valid()
      ensures Valid() && this.base == base && this.flash == flash && fresh(buffer)
      ensures Idle(View(None, InProgress)) && flash.cells[..] == old(flash.cells[..])
    {
      this.base, this.flash := base, flash;
      buffer := new byte[PAGE_SIZE](_ => 0);
      requestPtr, pending, eof, bufferPtr, writeOffset := 0, false, false, 0, 0;
      updating, server, path, sent := false, 0, [], [];
    }

    /** The response to a file read request; runs in the receive thread. */
    method OnFileRead(payload: seq<byte>)
      requires Valid()
      modifies this`bufferPtr, this`pending, this`eof, buffer
      ensures Valid() && State() == Receive(old(State()), payload)
    {
      var chunkLength := |payload| - 2;
      if !pending {
        return;
      }
      if chunkLength < 0 || chunkLength > CHUNK {
        return;
      }
      RoomForChunk(State());
      ghost var held := buffer[..];
      for i := 0 to chunkLength
        modifies buffer
        invariant forall j | 0 <= j < PAGE_SIZE ::
          buffer[j] == if bufferPtr <= j < bufferPtr + i then payload[2 + (j - bufferPtr)] else held[j]
      {
        buffer[bufferPtr + i] := payload[2 + i];
      }
      assert buffer[..] == Splice(held, bufferPtr, payload[2..]);
      bufferPtr := bufferPtr + chunkLength;
      pending := false;
      if chunkLength != CHUNK {
        eof := true;
      }
    }

    /** Encodes the request and puts it into the transmit queue. */
    method RequestFileRead(offset: nat)
      modifies this`sent
      ensures sent == old(sent) + [Read(server, path, offset)]
    {
      sent := sent + [Read(server, path, offset)];
    }

    method InitGlobals()
      modifies this`bufferPtr, this`eof, this`requestPtr, this`writeOffset
      ensures State() == Cleared(old(State()))
    {
      bufferPtr := 0;
      eof := false;
      requestPtr := 0;
      writeOffset := 0;
    }

    /** Verify the page, and if it differs erase, write and verify again. */
    method WritePage() returns (same: bool)
      requires Valid() && InFlash() && WritesPage(State())
      modifies flash.cells
      ensures Valid() && State() == old(State())
      ensures SameOutsidePage(old(flash.cells[..]), flash.cells[..], base + writeOffset)
      ensures same <==> Matches(flash.cells[..], base + writeOffset, buffer[..], bufferPtr)
      ensures old(Matches(flash.cells[..], base + writeOffset, buffer[..], bufferPtr)) ==> flash.cells[..] == old(flash.cells[..])
      ensures !flash.worn ==> same && Updated(old(flash.cells[..]), flash.cells[..], base + writeOffset, buffer[..], bufferPtr)
    {
      var adr := base + writeOffset;
      same := flash.VerifyBlock(adr, buffer, bufferPtr);
      if !same {
        flash.ErasePage(adr);
        ghost var erased := flash.cells[..];
        flash.WriteBlock(adr, buffer, bufferPtr);
        same := flash.VerifyBlock(adr, buffer, bufferPtr);
        if !flash.worn {
          assert UpdatedVia(old(flash.cells[..]), erased, flash.cells[..], adr, buffer[..], bufferPtr);
          UpdatedMatches(old(flash.cells[..]), flash.cells[..], adr, buffer[..], bufferPtr);
        }
      }
    }

    method ProcessFirmwareUpdate() returns (status: Status)
      requires Valid() && InFlash()
      modifies this`requestPtr, this`pending, this`eof, this`bufferPtr, this`writeOffset, this`sent, flash.cells
      ensures Valid()
      ensures Processed(base, old(flash.cells[..]), old(State()), flash.cells[..], State(), status)
      ensures sent == old(sent) + if old(Requests(State())) then [Read(server, path, old(requestPtr))] else []
      ensures !flash.worn ==> status != FlashFailed
      ensures !flash.worn && old(WritesPage(State())) ==>
        Updated(old(flash.cells[..]), flash.cells[..], base + old(writeOffset), old(buffer[..]), old(bufferPtr))
    {
      if !pending {
        if eof || bufferPtr == PAGE_SIZE {
          var same := WritePage();
          if !same {
            InitGlobals();
            return FlashFailed;
          }
          if eof {
            InitGlobals();
            return Success;
          }
          writeOffset := (writeOffset + bufferPtr) % U32;
          bufferPtr := 0;
        } else {
          RequestFileRead(requestPtr);
          requestPtr := (requestPtr + CHUNK) % U32;
          pending := true;
        }
      }
      return InProgress;
    }

    /** The update branch of the node thread's loop: one `Process` step of the protocol. */
    method UpdateBranch(ghost files: Files, ghost wire: Option<Read>) returns (status: Status, ghost wire': Option<Read>)
      requires Valid() && InFlash() && updating
      modifies this, flash.cells
      ensures Valid()
      ensures Step(base, files, old(View(wire, InProgress)), Process, View(wire', status))
      ensures !flash.worn ==> status != FlashFailed && Sound(base, old(View(wire, InProgress)), Process, View(wire', status))
    {
      ghost var s := View(wire, InProgress);
      status := ProcessFirmwareUpdate();
      wire' := if Requests(s.upd) then Some(sent[|sent| - 1]) else wire;
      PassIsStep(base, files, s, flash.cells[..], State(), status);
      if status == FlashFailed {
        updating := false;
        server := 0;
      } else if status == Success {
        server := 0;
        updating := false;
      }
      assert View(wire', status) == Passed(s, flash.cells[..], State(), status);
    }

    /**
     A request to begin an update: server node first, then the path. Its length is
     computed in eight bits, also for a request without any byte, and not compared
     with the 200 bytes there are; the model stops where the copy would leave them.
     `head` is what stands at the payload's beginning.
     */
    method OnBeginFirmwareUpdate(payload: seq<byte>, head: byte, restarting: bool, ghost files: Files, ghost wire: Option<Read>, ghost last: Status)
      returns (response: byte, overrun: bool)
      requires Valid() && (payload != [] ==> head == payload[0])
      modifies this`server, this`path, this`updating, this`sent
      ensures Valid()
      ensures response == if old(updating) then 2 else if restarting then 1 else 0
      ensures overrun <==> response == 0 && (|payload| - 1) % 256 > PATH_CAPACITY
      ensures overrun ==> View(wire, last) == old(View(wire, last))
      ensures response == 0 && 1 <= |payload| <= PATH_CAPACITY + 1 ==> !overrun && updating && server == payload[0] && path == payload[1..]
      ensures !overrun ==>
        Step(base, files, old(View(wire, last)), Begin(head, Path(payload), restarting), View(wire, if response == 0 then InProgress else last))
    {
      response, overrun := 0, false;
      var length := (|payload| - 1) % 256;
      if restarting {
        response := 1;
      }
      if updating {
        response := 2;
      }
      if response == 0 {
        if length > PATH_CAPACITY {
          return response, true;
        }
        server := head;
        path := payload[1..1 + length];
        sent := [];
        updating := true;
      }
    }
  }

  const PATH_CAPACITY := 200

  function Path(payload: seq<byte>): seq<byte> { if payload == [] then [] else payload[1..1 + (|payload| - 1) % 256] }
}
