/**
 * The return codes of the host's device interface that the two adapters
 * produce or inspect. Their numeric values live in headers that are not part
 * of this model, so they are kept symbolic; any other code a collaborator may
 * hand back is Other.
 */
module MMDevice {

  datatype Status =
    | Ok                    // DEVICE_OK
    | Err                   // DEVICE_ERR
    | BufferOverflow        // DEVICE_BUFFER_OVERFLOW
    | CameraBusyAcquiring   // DEVICE_CAMERA_BUSY_ACQUIRING
    | UnknownMode           // ERR_UNKNOWN_MODE
    | Other(code: int)
}
